/**
 Stored files stay valid UTF-8 at run time: in every reachable state of a server that receives only valid texts every
 stored file is valid, so no thread can trip the bounds assertion of the position lookup.
 */
module Validity {
  import opened Unicode
  import opened Wrappers
  import opened FileBrowser
  import opened Protocol
  import opened Context
  import opened Scheduler
  import opened Session
  import DidChange
  import File
  import Framing
  import Lines
  import Rpc

  // ---- One message ----

  lemma {:induction false} ApplyChangesValid(state: Buffer, changes: seq<ContentChangeEvent>)
    requires ValidUtf8(state) && forall change :: change in changes ==> ValidUtf8(change.text)
    requires ApplyChanges(state, changes).Some?
    ensures ValidUtf8(ApplyChanges(state, changes).value)
    decreases |changes|
  {
    hide ValidUtf8, ApplyChange;
    if changes != [] {
      ApplyChangeValid(state, changes[0]);
      ApplyChangesValid(ApplyChange(state, changes[0]).value, changes[1..]);
    }
  }

  lemma ApplyOneValid(files: Files, uri: Uri, version: int, change: DidChange.ContentChange)
    requires ValidFiles(files) && ValidChange(change)
    ensures ValidFiles(DidChange.ApplyOne(files, uri, version, change).files)
  {
    hide ValidUtf8, ApplyChanges;
    if change.Incremental? && uri in files && ApplyChanges(files[uri].content, [change.change]).Some? {
      ApplyChangesValid(files[uri].content, [change.change]);
    }
  }

  lemma {:induction false} ApplyAllValid(files: Files, uri: Uri, version: int, changes: seq<DidChange.ContentChange>)
    requires ValidFiles(files) && forall change :: change in changes ==> ValidChange(change)
    ensures ValidFiles(DidChange.ApplyAll(files, uri, version, changes).files)
    decreases |changes|
  {
    hide ValidFiles, DidChange.ApplyOne, ValidChange;
    if changes != [] {
      ApplyOneValid(files, uri, version, changes[0]);
      ApplyAllValid(DidChange.ApplyOne(files, uri, version, changes[0]).files, uri, version, changes[1..]);
    }
  }

  lemma NotifyValid(files: Files, method_: string, params: Params)
    requires ValidFiles(files) && ValidParams(params)
    ensures ValidFiles(NotifyDocs(files, method_, params))
  {
    hide ValidUtf8, DidChange.ApplyAll;
    match params
    case OpenParams(_, _, text) => ToLFValid(text);
    case ChangeParams(uri, version, changes) => ApplyAllValid(files, uri, version, changes);
    case _ =>
  }

  lemma ExecuteValid(shared: Shared, m: Message)
    requires ValidFiles(shared.docs.files) && ValidParams(m.params)
    ensures ValidFiles(Execute(shared, m).0.docs.files)
  {
    hide ValidFiles, ValidParams, NotifyDocs;
    ExecuteActsOnDocs(shared, m);
    NotifyValid(shared.docs.files, m.method_, m.params);
  }

  // ---- One step ----

  ghost predicate ValidInput(input: seq<Option<Message>>) {
    forall k :: 0 <= k < |input| && input[k].Some? ==> ValidParams(input[k].value.params)
  }

  ghost predicate ValidPc(pc: Pc) {
    pc.Applying? ==> forall change :: change in pc.changes ==> ValidChange(change)
  }

  ghost predicate ValidTexts(s: State) {
    && ValidFiles(s.shared.docs.files)
    && ValidInput(s.input)
    && (s.main.Scheduling? ==> ValidParams(s.main.message.params))
    && (forall k :: 0 <= k < |s.accepted| ==> ValidParams(s.accepted[k].params))
    && (forall t :: 0 <= t < |s.threads| ==> ValidPc(s.threads[t]))
  }

  lemma AdvanceValid(dump: Dump, s: State, t: nat, pc: Pc)
    requires ValidTexts(s) && ValidPc(pc) && Advance(dump, s, t, pc).Some?
    ensures var e := Advance(dump, s, t, pc).value;
            ValidFiles(e.shared.docs.files) && ValidPc(e.pc)
  {
    hide ValidFiles, ValidChange, Execute, DidChange.ApplyOne, Finalized, Framing.Piece;
    match pc
    case Begin(i) => ExecuteValid(s.shared, s.accepted[i]);
    case Applying(_, uri, version, changes) =>
      if changes != [] {
        ApplyOneValid(s.shared.docs.files, uri, version, changes[0]);
      }
    case _ =>
  }

  lemma StepValid(dump: Dump, s: State, t: nat)
    requires ValidTexts(s) && t < |s.threads| && StepThread(dump, s, t).Some?
    ensures ValidTexts(StepThread(dump, s, t).value)
  {
    hide Advance, ValidFiles, ValidParams, ValidChange, ValidInput;
    if !s.threads[t].StoreFlag? {
      AdvanceValid(dump, s, t, s.threads[t]);
    }
  }

  lemma ReadValid(s: State)
    requires ValidTexts(s) && StepRead(s).Some?
    ensures ValidTexts(StepRead(s).value)
  {
    hide ValidFiles, ValidParams, ValidPc;
  }

  lemma RequestStopValid(s: State, passed: set<nat>)
    requires ValidTexts(s) && StepRequestStop(s, passed).Some?
    ensures ValidTexts(StepRequestStop(s, passed).value)
  {
    hide ValidFiles, ValidParams, ValidInput;
  }

  lemma ScheduleValid(s: State)
    requires ValidTexts(s) && StepSchedule(s).Some?
    ensures ValidTexts(StepSchedule(s).value)
  {
    hide ValidFiles, ValidParams, ValidInput, ValidPc;
  }

  /** Threads may take a message or stop. */
  lemma ValidFrame(s: State, s': State)
    requires ValidTexts(s)
    requires s'.shared == s.shared && s'.input == s.input && s'.accepted == s.accepted
    requires s'.main.Scheduling? ==> s'.main == s.main
    requires |s'.threads| == |s.threads|
    requires forall t :: 0 <= t < |s.threads| ==> s'.threads[t] == s.threads[t] || !s'.threads[t].Applying?
    ensures ValidTexts(s')
  {
    hide ValidFiles, ValidParams, ValidInput, ValidChange;
  }

  lemma ValidNext(dump: Dump, s: State, a: Action)
    requires ValidTexts(s) && Next(dump, s, a).Some?
    ensures ValidTexts(Next(dump, s, a).value)
  {
    hide StepThread, StepRead, StepSchedule, StepRequestStop, ValidPc, ValidFiles, ValidParams, ValidInput, ValidChange;
    match a
    case Step(t) => StepValid(dump, s, t);
    case Read => ReadValid(s);
    case RequestStop(passed) => RequestStopValid(s, passed);
    case Schedule => ScheduleValid(s);
    case _ => ValidFrame(s, Next(dump, s, a).value);
  }

  // ---- Over whole runs ----

  lemma {:induction false} RunValid(dump: Dump, s: State, actions: seq<Action>)
    requires ValidTexts(s) && Run(dump, s, actions).Some?
    ensures ValidTexts(Run(dump, s, actions).value)
    decreases |actions|
  {
    hide ValidTexts, Next;
    if actions != [] {
      ValidNext(dump, s, actions[0]);
      RunValid(dump, Next(dump, s, actions[0]).value, actions[1..]);
    }
  }

  lemma InitiallyValid(input: seq<Option<Message>>, logs: seq<LogRecord>, workers: nat)
    requires ValidInput(input)
    ensures ValidTexts(Initial(input, logs, workers))
  {
  }

  /** In every reachable state of a server that receives only valid texts, every stored file is valid, and every lookup
      of a position in it stays within its bounds. */
  lemma FilesStayValid(dump: Dump, input: seq<Option<Message>>, s: State)
    requires ReachableFrom(dump, input, s) && ValidInput(input)
    ensures ValidFiles(s.shared.docs.files)
    ensures forall uri, line: nat, column: int :: uri in s.shared.docs.files ==>
              var content := s.shared.docs.files[uri].content;
              var r := File.OffsetOf(content, line, column);
              r.Some? ==> r.value <= |content|
  {
    hide Run, Initial, ReachableFrom, File.OffsetOf;
    var logs, workers, actions := RunFrom(dump, input, s);
    InitiallyValid(input, logs, workers);
    RunValid(dump, Initial(input, logs, workers), actions);
    forall uri, line: nat, column: int | uri in s.shared.docs.files
      ensures var content := s.shared.docs.files[uri].content;
              var r := File.OffsetOf(content, line, column);
              r.Some? ==> r.value <= |content|
    {
      File.OffsetInBounds(s.shared.docs.files[uri].content, line, column);
    }
  }

  /** In every reachable state an edit with a valid text is the edit of the decoded file, and is rejected exactly when a
      line does not exist, when its end lies before its start, or when the result would be too long for a string. */
  lemma RejectedOnlyThen(dump: Dump, input: seq<Option<Message>>, s: State, uri: Uri, change: ContentChangeEvent)
    requires ReachableFrom(dump, input, s) && ValidInput(input)
    requires uri in s.shared.docs.files && ValidUtf8(change.text)
    ensures exists text: Text, insert: Text ::
              && Encode(text) == s.shared.docs.files[uri].content && Encode(insert) == change.text
              && ApplyChange(s.shared.docs.files[uri].content, change) == Stored(Edit(text, change.range, insert))
              && RejectedWhen(text, change.range, insert, ApplyChange(s.shared.docs.files[uri].content, change).None?)
  {
    FilesStayValid(dump, input, s);
    hide ReachableFrom, Encode, ApplyChange;
    var text: Text :| Encode(text) == s.shared.docs.files[uri].content;
    var insert: Text :| Encode(insert) == change.text;
    ApplyChangeIsEdit(text, change.range, insert);
    StoredNone(text, change.range, insert);
  }

  ghost predicate RejectedWhen(text: Text, range: Range, insert: Text, rejected: bool) {
    var start := Lines.Locate(text, range.start.line, range.start.character);
    var end := Lines.Locate(text, range.end.line, range.end.character);
    rejected <==>
      || range.start.line > Lines.Terminators(text)
      || range.end.line > Lines.Terminators(text)
      || (start.Some? && end.Some? && end.value < start.value)
      || (start.Some? && end.Some? && start.value <= end.value
          && |Encode(text[..start.value] + insert + text[end.value..])| > MAX_SIZE)
  }

  lemma StoredNone(text: Text, range: Range, insert: Text)
    ensures RejectedWhen(text, range, insert, Stored(Edit(text, range, insert)).None?)
  {
    hide Encode, Lines.Locate, Lines.Terminators;
    Lines.LocateNone(text, range.start.line, range.start.character);
    Lines.LocateNone(text, range.end.line, range.end.character);
  }

  /** A parser that lets only valid UTF-8 through. */
  ghost predicate ParsesValid(parse: Parser) {
    forall body :: parse(body).Some? ==> Rpc.ValidStrings(parse(body).value)
  }

  /** The messages read from any bytes have valid texts, since the JSON parser rejects all others. */
  lemma {:induction false} ReadsValid(parse: Parser, stream: Framing.Stream)
    requires ParsesValid(parse) && Reads(parse, stream).Some?
    ensures ValidInput(Reads(parse, stream).value)
    decreases stream.Good(), |stream.rest|
  {
    hide ValidParams, Framing.ReadMessage, Rpc.ValidStrings, Rpc.MessageOf;
    if stream.Good() {
      ReadConsumes(parse, stream);
      var (stream', outcome) := ReadRequest(parse, stream);
      ReadsValid(parse, stream');
      if outcome.Received? {
        var content := Framing.ReadMessage(stream).1.content;
        Rpc.DecodedValid(parse(content).value);
      }
    }
  }
}
