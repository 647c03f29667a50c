# The Nitrate language server and its neighbours, modelled and proved

The Nitrate toolchain's language server keeps a copy of every file a client has open and answers requests about it. This
project models three parts of it that have to work together, and two pure algorithms of the package manager, and proves
what they promise.

**The document store.** A client edits its text at (line, UTF-16 column) positions; the server stores UTF-8 bytes.
`Unicode` holds the decoder, `Lines` the reference meaning of a position in a decoded text (the "Text Documents" and
"Position" sections of the LSP 3.17 specification), and `File` the byte scanners, which are proved to compute exactly
the UTF-8 length (RFC 3629, section 3) of the text before the position. `Endings` is line-ending normalisation on texts,
`FileBrowser` the store itself, `DidChange` the handler of change notifications, and `Agreement` the result all of this
is for: a client and the server that only sees its notifications agree over whole runs, and the condition on the
client's text is exact. `History` says what the store holds from the sequence of operations alone.

**The server at run time.** `Context` executes one message; `Scheduler` is the machine of all threads, one action for
every shared access: the reader thread, any number of workers, the queue, the output lock, log records on their way to
the client, the load and the store of the exit flag. On top of it, each for every reachable state of every interleaving:
`Conservation` (where each message is), `Accounting` (every message and every request received is accounted for, with
the merges of `Merging`), `Determinism` (the documents are those of a sequential execution), `Responses` (one response
each, whole frames), `Replies` (what the responses say), `Validity` (stored files stay valid UTF-8), `Termination`
(there is no endless run), `Shutdown` (how a run ends, and the ways in which that goes wrong), and `Exits` and
`LostExits` (what can be told beforehand about them). `GivingUp` and `Tracing` say when the reader thread gives up, and
which log records reach the client.

**The wire.** `Framing` is the header format of the "Base Protocol" of LSP 3.17, printed and parsed; `Numerals` and
`MessageHeaders` say what the reader makes of any number and any header section. `Rpc` turns JSON values into messages
with the checks of the reader and of every handler, and `JsonForms` says which values are the same message; `Protocol`
builds the responses.
`Session` joins everything: from the bytes of a client's session, through any interleaving, to the documents the server
holds.

**The package manager.** `SPDX` is the memoised edit distance and the search for the nearest licence. `OrderedStrings`,
`SemanticVersion`, `Manifest`, `ManifestRoundTrip` and `ManifestForms` are printing, checking and reading package
manifests.

Seven of the properties one would expect of the code do not hold, and in each case the model keeps the code as it is,
has a concrete run or input in which the property fails, and proves exactly when it holds:

- A document that contains a CR without an LF is not followed by the server, because opening it rewrites the CR to LF
  (`Agreement.AgreementExact`, `Agreement.BareCrDiverges`).
- The line and column computed from an offset do not lead back to it, because that direction counts bytes and the other
  UTF-16 units (`File.OffsetOfLineColumnIff`, `File.LineColumnOfOffsetIff`, `File.LineColumnCountsBytes`).
- The scheduler's exit flag is updated by a load and a separate store, so an exit can be lost to a worker that holds a
  stale value. The first exit is certain to be heeded exactly when no job is queued and no worker is busy as the reader
  thread gets to it (`LostExits.ExitHeededIff`, `Shutdown.ExitCanBeLost`).
- An exit that has been executed may therefore fail to end the server: each busy worker can undo it once, the loop goes
  on, and a concurrent message read then can leave a job in the queue on which the stop of the pool hangs. The first exit
  is certain to end the server exactly when none of the next messages is concurrent, counting as many messages as workers
  can undo it (`LostExits.ExitEndsIff`); when the next message is concurrent, exactly when the pool is quiet
  (`LostExits.ExitBeforeConcurrent`).
- The stop of the thread pool asks the workers to stop and then waits for the queue to become empty. It is certain to end
  exactly when the queue is empty as the server leaves its loop (`Exits.StopFinishesIff`, `Shutdown.StopCanHang`).
- Responses do not all conform to JSON-RPC 2.0: section 5.1 demands a message in every error object, and the code writes
  only the code, for instance for a request before `initialize` (`Replies.EarlyRequestErrs`). A response conforms exactly
  when it is a result, which for a request the reader thread executes is exactly when its method exists, it comes in time,
  and the parameters of `initialize` are understood (`Replies.ReplyConformsIff`, `Replies.ResponsesConformIff`).
- The identifier of a dependency need not be a UUID: dashes are accepted anywhere. It is one, groups of hexadecimal digits
  with four dashes between them, exactly when there are no other dashes (`ManifestRoundTrip.CanonicalIff`,
  `ManifestRoundTrip.DashesAccepted`).

Three more are exact conditions rather than failures: an edit that names two existing positions in order is rejected only
when a surrogate pair is split (`FileBrowser.OrderedEdit`), a batch of edits does what the edits do one by one unless it
is empty (`DidChange.BatchIsSequence`), and a manifest reads back as itself only without extra profiles and with 32-bit
requirements (`ManifestRoundTrip.ManifestRoundTripIff`).

## Model

| member | source | states |
|---|---|---|
| Unicode.DecodesEncoded | lib/src/lsp/resource/File.cc:100-136 | The decoder's masks and shifts recover the width in bytes and in UTF-16 units of every scalar value from its UTF-8 encoding, whatever follows |
| Lines.LocateNone | lib/src/lsp/resource/File.cc:143-176 | A position has no place in a text exactly when its line number exceeds the number of LF, CRLF and CR terminators |
| Lines.LocateComplete | lib/src/lsp/resource/File.cc:143-188 | Every index on a line is found again from its own line number and UTF-16 column |
| Lines.LocateSound | lib/src/lsp/resource/File.cc:143-197 | The index found lies on the right line, and has the column asked for or is the end of a line on which no index has it |
| Lines.LocateOrder | lib/src/lsp/resource/File.cc:178-197 | Two positions in order are located in order if and only if it is not the case that the first splits a surrogate pair and the second lies on the same line before its end |
| File.OffsetRefines | lib/src/lsp/resource/File.cc:138-198 | For every text, line and column, the byte scan of the encoded text gives the UTF-8 length of the prefix that ends at the reference position, and nothing exactly when there is none |
| File.GetOffset | lib/src/lsp/resource/File.cc:138-198 | The two scanning loops compute the byte scan on any bytes, the offset of the reference position on the bytes of any text, and never leave a valid file |
| File.StrayByte | lib/src/lsp/resource/File.cc:100-188 | On malformed files, a byte that can start no character is skipped and takes up no column |
| File.SurrogateBytes | lib/src/lsp/resource/File.cc:126-135 | Nor do three bytes that would decode to half a surrogate pair |
| File.OffsetInBounds | lib/src/lsp/resource/File.cc:195 | On valid UTF-8 the assertion on the offset cannot fail, for any position |
| File.TruncatedSequenceEscapes | lib/src/lsp/resource/File.cc:178-197 | A lead byte with nothing after it pushes the offset past the end: the reason why valid UTF-8 is required |
| File.GetLC | lib/src/lsp/resource/File.cc:200-229 | The loop from an offset to a line and a byte column computes the recursive scan the next three rows are about |
| File.LineColumnNone | lib/src/lsp/resource/File.cc:206-226 | An offset has no line and column exactly when it lies past the end or between a CR and its LF |
| File.OffsetOfLineColumnIff | lib/src/lsp/resource/File.cc:138-229 | On every valid file, the line and column of an offset lead back to it if and only if no byte of the line before it is outside ASCII, or the offset is the end of the line |
| File.LineColumnOfOffsetIff | lib/src/lsp/resource/File.cc:138-229 | On every valid file, the offset of a position has its line; it has its column, clipped to the length of the line in bytes, if and only if the line is ASCII up to that column or the column is not less than that length |
| File.LineColumnCountsBytes | lib/src/lsp/resource/File.cc:200-229 | An offset behind a letter outside ASCII whose line and column lead to the end of the line instead |
| File.OffsetOfLineColumn | lib/src/lsp/resource/File.cc:138-229 | In particular, on ASCII files the line and column of every offset lead back to it |
| File.LineColumnOfOffset | lib/src/lsp/resource/File.cc:138-229 | In particular, on ASCII files the offset of every position has that line, and that column clipped to the length of the line |
| Endings.NormaliseShape | lib/src/lsp/resource/FileBrowser.cc:53-73 | Normalised text holds no CR, and is shorter by exactly the number of CRLF pairs |
| Endings.NormaliseIdempotent | lib/src/lsp/resource/FileBrowser.cc:53-73 | Normalising twice is normalising once |
| Endings.NormaliseLocate | lib/src/lsp/resource/FileBrowser.cc:53-73 | Normalisation maps the prefix that ends at a position to the prefix of the normalised text that ends at the same position |
| Endings.SameCut | lib/src/lsp/resource/FileBrowser.cc:136-163 | A position cuts the server's copy and the client's text into halves that again differ only in CRLF against LF |
| Endings.SameOrder | lib/src/lsp/resource/FileBrowser.cc:152-161 | Two positions are in the same order in the server's copy and in the client's text |
| FileBrowser.TransformUTF8ToLF | lib/src/lsp/resource/FileBrowser.cc:53-73 | The loop rewrites every CR, LF and CRLF to LF, and nothing else |
| FileBrowser.ToLFEncode | lib/src/lsp/resource/FileBrowser.cc:53-73 | Rewriting the bytes of a text is normalising the text: no byte inside a longer sequence is mistaken for a terminator |
| FileBrowser.ToLFOffset | lib/src/lsp/resource/FileBrowser.cc:53-73 | On valid files, rewriting line endings commutes with the lookup of positions |
| FileBrowser.RangeLengthOrder | lib/src/lsp/resource/FileBrowser.cc:152-161 | The unsigned 64-bit difference of two offsets exceeds the file's size exactly when the range ends before it starts, which is how such a range is rejected |
| FileBrowser.ApplyChangeIsEdit | lib/src/lsp/resource/FileBrowser.cc:131-165 | Splicing the bytes is the edit of the decoded text; it is rejected exactly when a line does not exist, the end lies before the start, or the result is too long for a string |
| FileBrowser.OrderedEdit | lib/src/lsp/resource/FileBrowser.cc:136-161 | An edit between two existing positions in order is rejected if and only if the first splits a surrogate pair and the second lies on the same line, before its end |
| FileBrowser.ApplyChangeValid | lib/src/lsp/resource/FileBrowser.cc:129-165 | Whatever change is applied, a valid file stays valid UTF-8 |
| FileBrowser.FileBrowser.DidOpen | lib/src/lsp/resource/FileBrowser.cc:75-94 | Opens a file with its line endings rewritten, refuses one that is open; if the bytes are valid, valid files stay valid |
| FileBrowser.FileBrowser.DidChange | lib/src/lsp/resource/FileBrowser.cc:96-115 | Replaces the content and version of an open file and no other, and does not rewrite line endings |
| FileBrowser.FileBrowser.DidChanges | lib/src/lsp/resource/FileBrowser.cc:117-172 | Applies a list of edits in sequence to a copy, and stores it only if all of them succeed; on any failure nothing changes |
| FileBrowser.FileBrowser.DidSave | lib/src/lsp/resource/FileBrowser.cc:174-193 | Stores the saved text of an open file under its old version, succeeds without effect on a file that is not open |
| FileBrowser.FileBrowser.DidClose | lib/src/lsp/resource/FileBrowser.cc:195-210 | Forgets an open file and no other |
| FileBrowser.FileBrowser.GetFile | lib/src/lsp/resource/FileBrowser.cc:212-227 | Finds exactly the open files |
| History.OpenFiles | lib/src/lsp/resource/FileBrowser.cc:75-210 | After any sequence of operations a file is in the store exactly when it has been opened and not closed since |
| History.Reports | lib/src/lsp/resource/FileBrowser.cc:75-210 | After any sequence of operations, an open fails exactly on an open file, a close exactly on another one, a save never; a list of changes that is not empty fails on a file that is not open, and a single whole text only then |
| History.LastOperation | lib/src/lsp/resource/FileBrowser.cc:75-210 | What the last operation on a file leaves: the bytes of an open with their line endings rewritten; the bytes of a save, under the old version, or of the whole text that ends a list of changes, exactly as sent; after an open of an open file what was there before; nothing after a close |
| History.DocumentsAreHistory | lib/src/lsp/server/Scheduler.cc:58-126 | In every interleaving, whenever the reader thread is not executing or waiting to, the files are those that the operations carried by the accepted messages leave, in arrival order, from the first initialize request on |
| DidChange.BatchIsSequence | lib/src/lsp/resource/FileBrowser.cc:117-172 | A batch of edits succeeds exactly when the edits succeed one by one, with the same files, and changes nothing on failure, if and only if it is not empty, or the file is open at the version given |
| DidChange.StoppedPrefix | lib/src/lsp/support/route/textDocument_didChange.cc:126-150 | The handler leaves exactly the longest prefix of a mixed list applied that applies without a failure |
| Agreement.AgreementRun | lib/src/lsp/resource/FileBrowser.cc:53-193 | After any run of opens, full and incremental changes, saves and closes by a client whose documents hold no bare CR, the server has accepted everything, has the same documents open at the same versions, and each copy equals the client's bytes up to line endings |
| Agreement.AgreementExact | lib/src/lsp/resource/FileBrowser.cc:75-94 | The server follows every edit of a freshly opened document (that inserts no bare CR and whose result fits) if and only if the document contains no bare CR |
| Agreement.BareCrDiverges | lib/src/lsp/resource/FileBrowser.cc:53-73 | For every bare CR of every document, the edit that inserts an LF right after it is one the server does not follow |
| Agreement.ExactAfterWholeText | lib/src/lsp/resource/FileBrowser.cc:96-193 | Once the whole text of an open document has been sent by a full change or with a save, with whatever line endings, the server accepts a list of changes if and only if the client can make them, and then holds exactly the bytes of the client's text |
| Framing.DecimalRoundTrip | lib/src/lsp/server/ReadMessage.cc:133-140 | The number parser inverts the number printer on every 63-bit length |
| Framing.ParseHttpHeader | lib/src/lsp/server/ReadMessage.cc:64-97 | One header line is read and split, with the stream's end-of-file and failure bits |
| Framing.ParseHttpMessage | lib/src/lsp/server/ReadMessage.cc:99-158 | The loop over header lines reads exactly the message the stream's specification gives, in every error case too, and leaves the stream where that says |
| Framing.FrameRoundTrip | lib/src/lsp/server/Context.cc:137-146 | A frame reads back as its body and headers, and leaves exactly what follows it; bodies may hold CR, LF and colons |
| Framing.StreamRoundTrip | lib/src/lsp/server/ReadMessage.cc:64-158 | Concatenated frames read back as exactly their bodies, in order, and leave exactly the remaining bytes |
| Framing.MessageExtended | lib/src/lsp/server/ReadMessage.cc:99-158 | A message that can be read is read the same way whatever follows it: the reader never looks past a message |
| Framing.TornFrame | lib/src/lsp/server/ReadMessage.cc:150-158 | A frame cut short anywhere is never taken for a message |
| Numerals.LengthRead | lib/src/lsp/server/ReadMessage.cc:133-140 | A length is the number whose digits the header value starts with, after an optional minus sign, with any leading zeros and whatever follows; none if it does not fit in 64 bits |
| Numerals.NoLengthRead | lib/src/lsp/server/ReadMessage.cc:133-140 | A value that starts neither with a digit nor with a minus sign and a digit is no length |
| MessageHeaders.SectionRead | lib/src/lsp/server/ReadMessage.cc:47-158 | For every header section, with blanks around keys and values, CRLF or LF, any order and duplicates, and everything that can follow it: the message fails without a length or with too little content, is an error with a negative length, and otherwise has exactly the content of the last length given, the headers given with the last duplicate winning, and the default type if none was given |
| MessageHeaders.NoHeaderFails | lib/src/lsp/server/ReadMessage.cc:84-88 | A line without a colon among any headers spoils the message |
| Rpc.MessageRoundTrip | lib/src/lsp/server/ReadMessage.cc:160-214 | The server converts the JSON form of a client's message back to exactly that message, through the checks of the reader and of the handler of its method |
| Rpc.ChangeRoundTrip | lib/src/lsp/support/route/textDocument_didChange.cc:72-149 | A full or incremental change passes the handler's check and is converted back to itself |
| JsonForms.RangeDecides | lib/src/lsp/support/route/textDocument_didChange.cc:113-149 | Every change that passes the check is incremental exactly when it has a range, whatever else it has, with the text and the four numbers of its members |
| JsonForms.InitializeMalformedIff | lib/src/lsp/support/route/initialize.cc:41-66 | A request to initialise is malformed if and only if it has a trace level that is not a string |
| JsonForms.ExtrasIgnored | lib/src/lsp/server/ReadMessage.cc:160-214 | Further members anywhere in any JSON value, under names that nobody reads, do not change whether it is a message or which one |
| JsonForms.AcceptedIsForm | lib/src/lsp/server/ReadMessage.cc:160-214 | Conversely, whatever is taken for a message includes the JSON form of that message, unless a position in it is negative; where the parameters are malformed or set nothing, its version, method and id |
| Rpc.InRange | lib/src/lsp/support/route/textDocument_didChange.cc:128-135 | A signed position passed as an unsigned one keeps its value exactly if it is not negative, and becomes a very large one otherwise |
| Rpc.DecodedValid | lib/src/lsp/server/ReadMessage.cc:160-214 | Every text of a message that is executed is valid UTF-8 if the JSON parser accepts only valid strings |
| Protocol.FinalizedIsResponse | lib/src/lsp/protocol/Response.hh:65-88 | A finalised response has the version, the request's id and exactly one of a result and an error object with a code; the message that JSON-RPC 2.0 demands of an error object is the next row |
| Protocol.FinalizedCarries | lib/src/lsp/protocol/Response.hh:65-88 | The result of a successful response is the value the handler filled in; an error object keeps the members of that value and has the code of its status |
| Protocol.ConformsIff | lib/src/lsp/protocol/Response.hh:65-88 | A finalised response conforms to sections 5 and 5.1 of JSON-RPC 2.0 if and only if it is a result, or its JSON value already holds a message, which no handler writes |
| Protocol.ResponseMessage.Finalize | lib/src/lsp/protocol/Response.hh:65-88 | Rewriting the JSON in place yields that response |
| Context.Context.ExecuteNotification | lib/src/lsp/server/Context.cc:82-105 | A notification is routed, gated by the life cycle and handled as specified; it writes nothing to the output |
| Context.Context.ExecuteRequest | lib/src/lsp/server/Context.cc:55-80 | A request is gated, routed and handled as specified |
| Context.Context.NotifyTextDocumentDidChange | lib/src/lsp/support/route/textDocument_didChange.cc:113-150 | The loop applies the changes one at a time and stops at the first failure |
| Context.Context.SendMessage | lib/src/lsp/server/Context.cc:137-146 | Appends exactly one frame with the finalised response to the output |
| Context.Context.ExecuteRPC | lib/src/lsp/server/Context.cc:107-135 | Executes one message on the state, appends one frame for a request and nothing for a notification, and reports the exit request |
| Context.ExitRequestedBy | lib/src/lsp/server/Context.cc:107-135 | The context's exit request is made only by an exit notification and never withdrawn |
| Context.OneResponse | lib/src/lsp/server/Context.cc:107-135 | A request has exactly one response, with the version, its id and exactly one of a result and an error object with a code; a notification has none |
| Conservation.ConservedNext | lib/src/lsp/server/Scheduler.cc:76-126 | Every action of every thread keeps the invariant: messages are in one place, the queue is in arrival order, the reader thread executes only exclusive messages and the workers only concurrent ones |
| Accounting.ReceivedAccounted | lib/src/lsp/server/Scheduler.cc:76-126 | In every reachable state, also after an exit, the messages received are those accepted and those ignored because of the flag, merged in arrival order, and the one still to be scheduled; none is ignored before an exit is accepted |
| Accounting.RequestsAccounted | lib/src/lsp/server/Scheduler.cc:76-126 | In every reachable state the requests received are the responses sent plus the requests queued, waiting, being executed, ignored and still to be scheduled |
| Accounting.AcceptedOrIgnored | lib/src/lsp/server/Scheduler.cc:76-126 | Every message received was either accepted or ignored, unless it is still to be scheduled, and both kinds are at increasing positions among the messages received |
| Conservation.OnePlace | lib/src/lsp/server/ThreadPool.cc:61-101 | In every reachable state each accepted message is in exactly one place: queued, waiting for the queue to drain, executed by exactly one thread, or done |
| Conservation.WhoExecutes | lib/src/lsp/server/Scheduler.cc:58-126 | In every reachable state, completions and changes of the trace level are executed by workers, and every other message by the reader thread |
| Conservation.FirstInFirstOut | lib/src/lsp/server/ThreadPool.cc:61-90 | Jobs popped so far, then jobs queued, are the concurrent messages in arrival order |
| Conservation.Barrier | lib/src/lsp/server/Scheduler.cc:116-125 | While an exclusive message executes, everything before it has left the queue (a popped job may still run) and nothing after it has been accepted |
| Determinism.DocumentsAreSequential | lib/src/lsp/server/Scheduler.cc:58-126 | In every interleaving, whenever the reader thread is not executing or waiting to, the documents are those of the accepted messages executed one by one in arrival order; until an exit is accepted, everything received has been accepted |
| Determinism.SameMessagesSameDocuments | lib/src/lsp/server/Scheduler.cc:58-126 | Two runs that accepted the same messages hold the same documents, whenever neither reader thread is executing or waiting to |
| Replies.Lifecycle | lib/src/lsp/server/Context.cc:61-105 | The server is initialised exactly when a well-formed initialize request has been executed, and opens no file before |
| Replies.ResponsesSay | lib/src/lsp/server/Context.cc:55-80 | In every reachable state, every response to an exclusive request is what the life cycle demands at its place in the arrival order; a concurrent request is refused as too early only if no initialize came before it |
| Replies.ReplyConformsIff | lib/src/lsp/server/Context.cc:55-80 | The reply to a request conforms to JSON-RPC 2.0 if and only if the server has its method, is initialised unless this is the request to initialise, and understands the parameters of that one |
| Replies.EarlyRequestErrs | lib/src/lsp/server/Context.cc:61-70 | A request before initialize gets an error object with a code and no message, which does not conform |
| Replies.ResponsesConformIff | lib/src/lsp/server/Context.cc:55-80 | In every reachable state, a response sent conforms if and only if it reports success; for a request the reader thread executes, if and only if the request is served at its place in the arrival order |
| Replies.FramesSay | lib/src/lsp/support/route/initialize.cc:50-84 | In every reachable state, each frame that carries a response says what the request asks for at its place: a served initialize declares UTF-16 columns, incremental changes and saves with text, a served shutdown or completion is null, and an error has exactly the code of what is wrong |
| Replies.NoFilesBeforeInitialize | lib/src/lsp/server/Context.cc:82-105 | In every reachable state no file is open unless the server is initialised, and it is initialised only if an initialize request has been accepted; exactly then whenever the reader thread is not executing or waiting to |
| Responses.OneResponseEach | lib/src/lsp/server/Context.cc:107-135 | In every reachable state an accepted request has been answered exactly once if it is past its response and not at all before; a notification never |
| Responses.ResponsesAreValid | lib/src/lsp/server/Context.cc:119-129 | Every response sent carries the id of the request it answers, and exactly one of a result and an error object with a code |
| Responses.ResponsesInTurn | lib/src/lsp/server/Scheduler.cc:116-125 | In every reachable state the responses to requests executed by the reader thread have been sent in the order in which the requests arrived |
| Responses.OnlyCompletionsOvertake | lib/src/lsp/server/Scheduler.cc:58-72 | In particular, of two responses out of order one answers a completion, or a request named like the trace notification |
| Responses.OutputIsFrames | lib/src/lsp/server/Context.cc:137-194 | In every reachable state a client reads from the output exactly the bodies written, in lock order; they are the responses sent and the log records traced, merged in order; what is left is what the holder of the lock has written |
| Tracing.LevelDecides | lib/src/lsp/server/Context.cc:166-194 | For a client that has announced itself, the level set by notification or by initialize lets through all records, those above the trace severity, or none, and is that of messages until it is set |
| Tracing.NothingTracedBefore | lib/src/lsp/server/Context.cc:166-194 | In every reachable state in which a record has been written to the client, its initialized notification has been accepted |
| Validity.FilesStayValid | lib/src/lsp/resource/FileBrowser.cc:75-193 | In every reachable state of a server that receives only valid texts, every stored file is valid UTF-8 and every lookup in it stays within bounds |
| Validity.RejectedOnlyThen | lib/src/lsp/resource/FileBrowser.cc:129-165 | In every reachable state a change is the edit of the decoded file, and is rejected exactly for a missing line, an end before the start, or a result too long for a string |
| Validity.ReadsValid | lib/src/lsp/server/ReadMessage.cc:216-248 | The messages read from any bytes have valid texts |
| Termination.NextDecreases | lib/src/lsp/server/Server.cc:69-118 | Every action decreases the measure of unread messages, failures left, phase of the reader thread, and steps and log records left |
| Termination.NoEndlessRun | lib/src/lsp/server/Server.cc:69-118 | From every reachable state every endless sequence of actions gets stuck |
| Shutdown.NoOtherDeadlock | lib/src/lsp/server/Server.cc:60-119 | A run that cannot go on has finished, or hangs in the stop of the pool |
| Shutdown.WhyItExits | lib/src/lsp/server/Server.cc:72-118 | The loop is left only because of an exit notification, an external stop, or the fourth successive failed read |
| GivingUp.GivesUpIff | lib/src/lsp/server/Server.cc:69-96 | From every input, a read makes the reader thread give up if and only if it and the three reads before it failed |
| Exits.StopFinishesIff | lib/src/lsp/server/ThreadPool.cc:103-115 | When the server has left its loop, every run that goes on as far as it can finishes if and only if the queue is empty |
| Shutdown.StopCanHang | lib/src/lsp/server/ThreadPool.cc:103-115 | One completion request followed by failed reads reaches that hang |
| LostExits.ExitHeededIff | lib/src/lsp/server/Scheduler.cc:106-124 | When the reader thread is about to execute the first exit, every continuation has the exit flag set from the moment the exit is done if and only if no job is queued and no worker executes one |
| Shutdown.ExitCanBeLost | lib/src/lsp/server/Scheduler.cc:106-124 | There is a run in which the message after an exit is accepted |
| Shutdown.ExitFindsQueueEmpty | lib/src/lsp/server/Scheduler.cc:116-125 | Whenever the reader thread stores the exit flag the queue is empty |
| LostExits.ExitEndsIff | lib/src/lsp/server/Scheduler.cc:76-126 | Every run that goes on as far as it can from the first exit waiting to be executed finishes, if and only if none of the next n messages, up to the reads that end the loop, is concurrent, where n is the number of workers or the number of busy workers and queued jobs, whichever is less |
| LostExits.ExitBeforeConcurrent | lib/src/lsp/server/ThreadPool.cc:103-115 | If the next message is concurrent, every such run finishes if and only if nothing is queued and no worker is busy |
| Session.ReadConsumes | lib/src/lsp/server/ReadMessage.cc:216-248 | Every read uses up some of the stream or leaves it failed, so a finite stream allows finitely many reads |
| Session.FramesRead | lib/src/lsp/server/ReadMessage.cc:216-248 | The reads of a client's frames yield exactly its messages in order, then a failed read |
| Session.BodiesRead | lib/src/lsp/server/ReadMessage.cc:216-248 | The reads of any frames yield what each body means; a body that is no message costs one failed read and nothing else |
| Session.AcceptedPrefix | lib/src/lsp/server/Scheduler.cc:76-126 | Up to the first exit, what the server has accepted is a prefix of what was sent; if only the last message can be an exit, this is all it has accepted, and everything once all has been read and scheduled |
| Session.SessionAgrees | lib/src/lsp/server/Scheduler.cc:58-126 | In every interleaving, whenever the reader thread is not executing or waiting to, the server's documents agree with the client's as they were after the actions the server has heard of, with concurrent and other messages in between |
| Session.EndToEnd | lib/src/lsp/server/Server.cc:60-119 | The same, under the same condition, from the client's bytes: frames, JSON, scheduling and the document store together |
| SPDX.DistanceIsOptimum | lib/src/core/static/SPDX.cc:44-72 | The recursion, with its greedy match of equal characters, is the cost of a cheapest script of insertions, deletions and substitutions |
| SPDX.DropOne | lib/src/core/static/SPDX.cc:64-68 | Dropping a first character changes the distance by at most one: why the greedy match loses nothing |
| SPDX.Dp | lib/src/core/static/SPDX.cc:51-69 | The memoised recursion returns the distance of the two suffixes, and every cell of the table stays the sentinel or the true distance |
| SPDX.Levenstein | lib/src/core/static/SPDX.cc:44-72 | Returns the cost of a script that edits one string into the other and is no costlier than any other |
| SPDX.ZeroIffEqual | lib/src/core/static/SPDX.cc:51-71 | The distance is zero exactly on equal strings |
| SPDX.Symmetric | lib/src/core/static/SPDX.cc:51-71 | The distance is symmetric |
| SPDX.Triangle | lib/src/core/static/SPDX.cc:51-71 | The distance satisfies the triangle inequality |
| SPDX.Bounds | lib/src/core/static/SPDX.cc:51-71 | The distance lies between the difference of the lengths and the longer length, so it never meets the sentinel |
| SPDX.FindClosestSPDXLicense | lib/src/core/static/SPDX.cc:74-91 | Returns the spelling of an identifier nearest to the query in lower case, the first in the order of the walk; if the keys hold no capitals and one of them differs from the query at most in case, its spelling |
| SPDX.NearestIsExactMatch | lib/src/core/static/SPDX.cc:74-97 | A nearest identifier matches the query but for case exactly when the table holds a match, and then it is that one; case is the independent relation of the next row |
| SPDX.LowerCaseIff | lib/src/core/static/SPDX.cc:74-97 | Two strings have the same lower-case form if and only if at each position they have the same character or a letter and its capital, and that form holds no capital |
| SPDX.MatchIff | lib/src/core/static/SPDX.cc:93-97 | In a table whose keys hold no capitals, a query matches if and only if some key differs from it at most in case |
| OrderedStrings.InsertSorted | lib/src/core/package/Manifest.cc:494-500 | Inserting into an ordered set keeps it strictly increasing |
| SemanticVersion.VersionRoundTrip | lib/src/core/package/Manifest.cc:397-451 | Every version of 32-bit numbers prints in the accepted format and reads back as it was, although a patch of zero is not printed |
| SemanticVersion.VersionInjective | lib/src/core/package/Manifest.cc:397-404 | Two versions that print alike are equal |
| SemanticVersion.NumeralsRead | lib/src/core/package/Manifest.cc:436-451 | Two or three numerals with dots between them, leading zeros allowed, are a version and read as their numbers narrowed to 32 bits, the patch as zero if there is none; a number over 64 bits throws |
| SemanticVersion.VersionIsNumerals | lib/src/core/package/Manifest.cc:115-122 | Nothing else is a version |
| Manifest.OptimizationBuilder.constructor | lib/src/core/package/Manifest.hh:392-396 | Starts with the three required profiles and the default requirements |
| Manifest.OptimizationBuilder.SetProfile | lib/src/core/package/Manifest.hh:421-424 | Sets one profile and keeps the required ones present |
| Manifest.OptimizationBuilder.ClearProfile | lib/src/core/package/Manifest.hh:426-431 | Removes a profile unless it is required |
| Manifest.OptimizationBuilder.ClearAllProfiles | lib/src/core/package/Manifest.hh:433-440 | Leaves exactly the required profiles, all empty |
| Manifest.FlagsRoundTrip | lib/src/core/package/Manifest.cc:494-500 | A set of flags printed as an array is collected again as it was |
| Manifest.CollectedElements | lib/src/core/package/Manifest.cc:494-500 | Whatever the order of an array and its duplicates, exactly its strings are collected |
| Manifest.ConvertOptimization | lib/src/core/package/Manifest.cc:514-526 | Sets every profile of the object, in whatever order its members are visited, and keeps the required ones; fails exactly if one of them is not well-formed |
| Manifest.ObjectToInstance | lib/src/core/package/Manifest.cc:534-552 | The loops over contacts, roles, profiles and dependencies fill in the manifest the value stands for, or end as that says |
| Manifest.ReadsIff | lib/src/core/package/Manifest.cc:442-552 | A manifest is read from a schema-correct value if and only if its profiles are well-formed, also those the schema does not check, and no version number exceeds 64 bits |
| Manifest.ToJson | lib/src/core/package/Manifest.cc:554-668 | The loops over contacts, roles and dependencies print the manifest, and the schema flag is the check of what is printed |
| Manifest.FromJson | lib/src/core/package/Manifest.cc:676-702 | Rejects exactly what does not parse or does not pass the schema check, and otherwise ends as the value reads, whatever it holds |
| ManifestForms.ExtrasIgnored | lib/src/core/package/Manifest.cc:258-552 | Further members under names that nobody reads, outside the build profiles and the ownership chain, change neither the schema check nor the manifest read |
| ManifestRoundTrip.CorrectSchemaIff | lib/src/core/package/Manifest.cc:258-392 | A manifest prints with a correct schema if and only if its name, its licence and the identifiers of its dependencies are acceptable |
| ManifestRoundTrip.CanonicalIff | lib/src/core/package/Manifest.cc:53-63 | An identifier is accepted and has no dash but the four between its groups if and only if it consists of groups of 8, 4, 4, 4 and 12 hexadecimal digits with dashes between them |
| ManifestRoundTrip.DashesAccepted | lib/src/core/package/Manifest.cc:53-63 | An identifier of dashes alone is accepted |
| ManifestRoundTrip.MembersRequired | lib/src/core/package/Manifest.cc:258-392 | For every schema-correct value, each of the eleven members is required, and the major number of the format is one |
| ManifestRoundTrip.PartsRequired | lib/src/core/package/Manifest.cc:115-384 | In every contact, dependency, platform list, profile and requirement each member but a phone number is required |
| ManifestRoundTrip.BlockPartsRequired | lib/src/core/package/Manifest.cc:65-250 | In every block of the ownership chain each member is required, and a public key has no others |
| ManifestRoundTrip.ManifestRoundTrip | lib/src/core/package/Manifest.cc:534-702 | A manifest that prints with a correct schema always reads back, without extra profiles and with requirements narrowed to 32 bits, and otherwise unchanged |
| ManifestRoundTrip.ManifestRoundTripIff | lib/src/core/package/Manifest.cc:509-668 | It reads back as itself if and only if it has only the required profiles and 32-bit requirements |

## Left out

- File.GetOffset: does not say what a failing assertion does on malformed bytes, as in `File.TruncatedSequenceEscapes`; the assertion macro is not part of this model. That the store only ever holds valid bytes is `Validity.FilesStayValid`.
- Context.Context.ExecuteNotification: leaves out the log records that can be written to the output meanwhile; the run-time machine has them. The same goes for the next two.
- Context.Context.ExecuteRPC: see above.
- Context.Context.SendMessage: see above.
- FileBrowser.ApplyChangeIsEdit: a replacement that would exceed the maximum size of a string is a rejected change in the model; in the code the string class throws.
- Framing.ParseHttpMessage: a negative Content-Length is an outcome of its own, where the code throws on resizing; that a very large one may exhaust the memory is not modelled.
- Session.EndToEnd: the JSON library's parser and printer are parameters, of which it is assumed that the parser understands what the printer writes for the session's messages.
- Manifest.FromJson: a schema-correct value with an ill-formed profile beyond the required ones has an outcome of its own; what the code does there (it may throw, fail an assertion of the JSON library, or take `null` for an empty list) is not modelled.
- Manifest.ToJson: works on JSON values; printing and parsing JSON text, and the pattern of package names, are parameters or left to the library.
- SPDX.FindClosestSPDXLicense: the table is an arbitrary non-empty list in the iteration order of the hash map; its contents are not part of this model.
- Context.Context.ExecuteRequest: a completion request only looks a position up and its handler discards the result, so the model leaves the lookup out.
- Scheduler and thread pool: in the run-time machine a handler other than the one of change notifications is one step; a worker that finds the queue empty takes no step; the pool, which the code starts with the first message, is there from the start; the lifetime of objects at destruction is not modelled.
- Server: suspending and resuming are not modelled; stopping from outside is possible between two reads.
- What is logged, and when: log records are an arbitrary finite sequence that any thread may write at any time; a record is written in one step. Everything that only debug builds do.
- Connections over TCP and standard streams; streams are byte sequences with the two state bits of a standard stream.
- Shared strings (flyweights) are plain values.
- The remaining setters of manifests and the ownership chain of dependencies, which the code leaves empty when printing and does not read.
- Library reference counting, package name parsing, and the commands of the package manager.
