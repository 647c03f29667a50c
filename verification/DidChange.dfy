/**
 A change notification carries a mixed list of full and incremental changes; the handler applies them one at a time
 and stops at the first failure.
 */
module DidChange {
  import opened Wrappers
  import opened FileBrowser

  datatype ContentChange = Full(text: Buffer) | Incremental(change: ContentChangeEvent)

  function ApplyOne(files: Files, uri: Uri, version: int, change: ContentChange): Result {
    match change
    case Full(text) => Changed(files, uri, version, text)
    case Incremental(event) => Edited(files, uri, version, [event])
  }

  function ApplyAll(files: Files, uri: Uri, version: int, changes: seq<ContentChange>): Result
    decreases |changes|
  {
    if changes == [] then Result(files, true)
    else
      var first := ApplyOne(files, uri, version, changes[0]);
      if first.ok then ApplyAll(first.files, uri, version, changes[1..]) else first
  }

  lemma SingleChange(state: Buffer, event: ContentChangeEvent)
    ensures ApplyChanges(state, [event]) == ApplyChange(state, event)
  {
    if ApplyChange(state, event).Some? {
      assert ApplyChanges(ApplyChange(state, event).value, [event][1..]) == ApplyChange(state, event);
    }
  }

  function Incrementals(events: seq<ContentChangeEvent>): seq<ContentChange> {
    seq(|events|, i requires 0 <= i < |events| => Incremental(events[i]))
  }

  /** The two results of a list of incremental changes, in one batch or one by one, are the same for a caller: they
      succeed together, and then leave the same files; a batch that fails changes nothing. */
  predicate SameOutcome(files: Files, batch: Result, singly: Result) {
    && batch.ok == singly.ok
    && (batch.ok ==> batch.files == singly.files)
    && (!batch.ok ==> batch.files == files)
  }

  /** One batch of changes does what the same changes do one by one, unless it is empty: an empty batch fails on a file
      that is not open and otherwise still sets the version, whereas no changes at all do nothing. */
  lemma BatchIsSequence(files: Files, uri: Uri, version: int, events: seq<ContentChangeEvent>)
    ensures SameOutcome(files, Edited(files, uri, version, events), ApplyAll(files, uri, version, Incrementals(events)))
            <==> events != [] || (uri in files && files[uri].version == version)
  {
    if events == [] {
      EmptyBatch(files, uri, version);
    } else {
      NonEmptyBatch(files, uri, version, events);
    }
  }

  lemma EmptyBatch(files: Files, uri: Uri, version: int)
    ensures ApplyAll(files, uri, version, Incrementals([])) == Result(files, true)
    ensures uri !in files ==> Edited(files, uri, version, []) == Result(files, false)
    ensures uri in files ==>
              && Edited(files, uri, version, []).ok
              && (Edited(files, uri, version, []).files == files <==> files[uri].version == version)
  {
    assert Incrementals([]) == [];
    if uri in files {
      var document := Document(version, files[uri].content);
      assert files[uri := document][uri] == document;
      assert document == files[uri] ==> files[uri := document] == files;
    }
  }

  lemma {:induction false} NonEmptyBatch(files: Files, uri: Uri, version: int, events: seq<ContentChangeEvent>)
    requires events != []
    ensures SameOutcome(files, Edited(files, uri, version, events), ApplyAll(files, uri, version, Incrementals(events)))
    decreases |events|
  {
    hide ApplyChange;
    if uri in files {
      var state := files[uri].content;
      SingleChange(state, events[0]);
      assert Incrementals(events)[0] == Incremental(events[0]);
      assert Incrementals(events)[1..] == Incrementals(events[1..]);
      var first := ApplyOne(files, uri, version, Incremental(events[0]));
      if first.ok && |events| > 1 {
        NonEmptyBatch(first.files, uri, version, events[1..]);
        assert first.files[uri := Document(version, state)] == files[uri := Document(version, state)];
      }
    }
  }

  /** The handler leaves exactly the longest prefix of the list applied that applies without a failure. */
  lemma {:induction false} LongestPrefix(files: Files, uri: Uri, version: int, changes: seq<ContentChange>)
    returns (n: nat)
    ensures n <= |changes|
    ensures ApplyAll(files, uri, version, changes[..n]) == Result(ApplyAll(files, uri, version, changes).files, true)
    ensures forall m: nat :: m <= |changes| ==> (ApplyAll(files, uri, version, changes[..m]).ok <==> m <= n)
    ensures ApplyAll(files, uri, version, changes).ok <==> n == |changes|
    decreases |changes|
  {
    if changes == [] {
      n := 0;
    } else {
      var first := ApplyOne(files, uri, version, changes[0]);
      if first.ok {
        var n' := LongestPrefix(first.files, uri, version, changes[1..]);
        n := n' + 1;
        forall m: nat | 0 < m <= |changes|
          ensures changes[..m][1..] == changes[1..][..m - 1]
        {
        }
      } else {
        n := 0;
      }
    }
  }

  lemma StoppedPrefix(files: Files, uri: Uri, version: int, changes: seq<ContentChange>)
    ensures exists n: nat :: n <= |changes| && StopsAfter(files, uri, version, changes, n)
  {
    var n := LongestPrefix(files, uri, version, changes);
    assert StopsAfter(files, uri, version, changes, n);
  }

  ghost predicate StopsAfter(files: Files, uri: Uri, version: int, changes: seq<ContentChange>, n: nat)
    requires n <= |changes|
  {
    && ApplyAll(files, uri, version, changes[..n]) == Result(ApplyAll(files, uri, version, changes).files, true)
    && (forall m: nat :: m <= |changes| ==> (ApplyAll(files, uri, version, changes[..m]).ok <==> m <= n))
    && (ApplyAll(files, uri, version, changes).ok <==> n == |changes|)
  }
}
