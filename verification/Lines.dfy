/**
 Lines and positions of a decoded text, as the "Text Documents" and "Position" sections of the LSP 3.17
 specification define them: a line ends at LF, CRLF or CR, and a character offset counts UTF-16 code units.
 This is the reference that the byte scanners and the document store are measured against.
 */
module Lines {
  import opened Unicode
  import opened Wrappers

  predicate IsEol(c: Scalar) {
    c == CR || c == LF
  }

  /** The length of the line terminator a text starts with, 0 if it starts with none. */
  function EolLength(t: Text): (n: nat)
    ensures n <= |t| && n <= 2
  {
    if t == [] || !IsEol(t[0]) then 0
    else if t[0] == CR && |t| > 1 && t[1] == LF then 2
    else 1
  }

  /** The length of the first unit a scan over lines steps across: a whole terminator, or one character. */
  function Glyph(t: Text): (n: nat)
    requires t != []
    ensures 1 <= n <= |t|
  {
    if EolLength(t) == 0 then 1 else EolLength(t)
  }

  /** How many terminators are still to be skipped once the first unit has been. */
  function LinesLeft(t: Text, line: nat): nat
    requires line > 0
  {
    if EolLength(t) == 0 then line else line - 1
  }

  function Terminators(t: Text): nat {
    if t == [] then 0
    else if EolLength(t) == 0 then Terminators(t[1..])
    else 1 + Terminators(t[EolLength(t)..])
  }

  /** The width of a text in UTF-16 code units. */
  function Width(t: Text): (w: nat)
    ensures w >= |t|
  {
    if t == [] then 0 else Units(t[0]) + Width(t[1..])
  }

  /** Index j is where line number `line` of the text starts. */
  ghost predicate StartsLine(t: Text, j: nat, line: nat) {
    && j <= |t|
    && Terminators(t[..j]) == line
    && (j == 0 || IsEol(t[j - 1]))
    && !(0 < j < |t| && t[j - 1] == CR && t[j] == LF)
  }

  /** Index i is on line number `line`, which starts at j, and not past the end of that line. */
  ghost predicate OnLine(t: Text, line: nat, j: nat, i: nat) {
    && j <= i <= |t|
    && StartsLine(t, j, line)
    && forall k :: j <= k < i ==> !IsEol(t[k])
  }

  predicate AtLineEnd(t: Text, i: nat)
    requires i <= |t|
  {
    i == |t| || IsEol(t[i])
  }

  /** The index reached by walking `column` UTF-16 units into the first line: the end of the line if no index has
      exactly that column. */
  function ColumnIndex(t: Text, column: int): (i: nat)
    ensures i <= |t|
  {
    if t == [] || IsEol(t[0]) || column == 0 then 0 else 1 + ColumnIndex(t[1..], column - Units(t[0]))
  }

  /** The index of a position, None if there is no such line. */
  function Locate(t: Text, line: nat, column: int): (r: Option<nat>)
    ensures r.Some? ==> r.value <= |t|
  {
    if line == 0 then Some(ColumnIndex(t, column))
    else if t == [] then None
    else Shift(Glyph(t), Locate(t[Glyph(t)..], LinesLeft(t, line), column))
  }

  function Shift(n: nat, r: Option<nat>): Option<nat> {
    if r.Some? then Some(n + r.value) else None
  }

  // ---- Locate against the declarative definition of a position ----

  lemma {:induction false} LocateNone(t: Text, line: nat, column: int)
    ensures Locate(t, line, column).None? <==> line > Terminators(t)
    decreases |t|
  {
    if line > 0 && t != [] {
      LocateNone(t[Glyph(t)..], LinesLeft(t, line), column);
    }
  }

  /** Dropping the first unit moves the line starts along. */
  lemma {:induction false} StartsLineTail(t: Text, line: nat, j: nat)
    requires t != [] && line > 0 && j >= Glyph(t)
    ensures StartsLine(t, j, line) <==> StartsLine(t[Glyph(t)..], j - Glyph(t), LinesLeft(t, line))
  {
    var n := Glyph(t);
    if j <= |t| {
      assert t[..j][n..] == t[n..][..j - n];
      assert EolLength(t[..j]) == EolLength(t);
      assert j > n ==> t[n..][j - n - 1] == t[j - 1];
    }
  }

  lemma {:induction false} FirstLineStart(t: Text, j: nat)
    ensures StartsLine(t, j, 0) <==> j == 0
  {
    if 0 < j <= |t| && IsEol(t[j - 1]) {
      SomeTerminator(t[..j], j - 1);
    }
  }

  lemma {:induction false} SomeTerminator(t: Text, k: nat)
    requires k < |t| && IsEol(t[k])
    ensures Terminators(t) > 0
  {
    if EolLength(t) == 0 {
      SomeTerminator(t[1..], k - 1);
    }
  }

  /** A later line starts no earlier than the end of the first terminator. */
  lemma {:induction false} LaterLineStart(t: Text, line: nat, j: nat)
    requires StartsLine(t, j, line) && line > 0
    ensures t != [] && j >= Glyph(t)
  {
    assert Terminators(t[..0]) == 0;
  }

  /** Every index on a line is what its own line number and column locate. */
  lemma {:induction false} LocateComplete(t: Text, line: nat, j: nat, i: nat)
    requires OnLine(t, line, j, i)
    ensures Locate(t, line, Width(t[j..i])) == Some(i)
    decreases |t|
  {
    hide StartsLine, Width, Terminators, ColumnIndex, EolLength;
    if line == 0 {
      FirstLineStart(t, j);
      ColumnComplete(t, i);
    } else {
      LaterLineStart(t, line, j);
      StartsLineTail(t, line, j);
      var n, line' := Glyph(t), LinesLeft(t, line);
      assert t[n..][j - n..i - n] == t[j..i];
      assert OnLine(t[n..], line', j - n, i - n);
      LocateComplete(t[n..], line', j - n, i - n);
    }
  }

  lemma {:induction false} ColumnComplete(t: Text, i: nat)
    requires i <= |t| && forall k :: 0 <= k < i ==> !IsEol(t[k])
    ensures ColumnIndex(t, Width(t[0..i])) == i
  {
    if i > 0 {
      assert t[0..i][1..] == t[1..][0..i - 1];
      ColumnComplete(t[1..], i - 1);
    } else {
      assert t[0..0] == [];
    }
  }

  /** The located index is on the right line; it has the column asked for, or it is the end of a line on which no
      index has that column. */
  lemma {:induction false} LocateSound(t: Text, line: nat, column: int)
    requires Locate(t, line, column).Some?
    ensures var i := Locate(t, line, column).value;
            exists j :: OnLine(t, line, j, i) && Reached(t, line, j, i, column)
  {
    var j := LineStart(t, line, column);
    assert OnLine(t, line, j, Locate(t, line, column).value);
  }

  ghost predicate Reached(t: Text, line: nat, j: nat, i: nat, column: int)
    requires j <= i <= |t|
  {
    || Width(t[j..i]) == column
    || (AtLineEnd(t, i) && forall k: nat :: OnLine(t, line, j, k) ==> Width(t[j..k]) != column)
  }

  lemma {:induction false} LineStart(t: Text, line: nat, column: int) returns (j: nat)
    requires Locate(t, line, column).Some?
    ensures var i := Locate(t, line, column).value;
            OnLine(t, line, j, i) && Reached(t, line, j, i, column)
    decreases |t|
  {
    if line == 0 {
      j := 0;
      ColumnSound(t, column);
    } else {
      var n, line' := Glyph(t), LinesLeft(t, line);
      var below := Locate(t[n..], line', column);
      assert Locate(t, line, column) == Shift(n, below);
      var j' := LineStart(t[n..], line', column);
      j := n + j';
      StartsLineTail(t, line, j);
      ReachedShift(t, line, line', n, j', below.value, column);
    }
  }

  lemma ReachedShift(t: Text, line: nat, line': nat, n: nat, j': nat, i': nat, column: int)
    requires n <= |t|
    requires StartsLine(t[n..], j', line') && StartsLine(t, n + j', line)
    requires OnLine(t[n..], line', j', i') && Reached(t[n..], line', j', i', column)
    ensures OnLine(t, line, n + j', n + i') && Reached(t, line, n + j', n + i', column)
  {
    assert t[n..][j'..i'] == t[n + j'..n + i'];
    var j := n + j';
    forall k: nat | OnLine(t, line, j, k)
      ensures OnLine(t[n..], line', j', k - n) && t[n..][j'..k - n] == t[j..k]
    {
    }
  }

  lemma {:induction false} ColumnSound(t: Text, column: int)
    ensures var i := ColumnIndex(t, column);
            OnLine(t, 0, 0, i) && Reached(t, 0, 0, i, column)
  {
    var i := ColumnIndex(t, column);
    FirstLineStart(t, 0);
    if t != [] && !IsEol(t[0]) && column != 0 {
      ColumnSound(t[1..], column - Units(t[0]));
      FirstLineStart(t[1..], 0);
      assert t[0..i][1..] == t[1..][0..i - 1];
      forall k: nat | OnLine(t, 0, 0, k) && AtLineEnd(t, i) && Width(t[0..i]) != column
        ensures Width(t[0..k]) != column
      {
        if k > 0 {
          assert t[0..k][1..] == t[1..][0..k - 1];
          assert OnLine(t[1..], 0, 0, k - 1);
        }
      }
    } else if column != 0 {
      assert forall k: nat :: OnLine(t, 0, 0, k) ==> k == 0;
    } else {
      assert t[0..0] == [];
    }
  }

  // ---- The order of positions ----

  /** The column falls between the two code units of a surrogate pair of the first line. */
  predicate SplitsPair(t: Text, column: int) {
    && t != [] && !IsEol(t[0]) && column > 0
    && ((column == 1 && Units(t[0]) == 2) || SplitsPair(t[1..], column - Units(t[0])))
  }

  function LineEnd(t: Text): (i: nat)
    ensures i <= |t|
  {
    if t == [] || IsEol(t[0]) then 0 else 1 + LineEnd(t[1..])
  }

  /** Columns keep their order, except that a column inside a surrogate pair runs to the end of the line. */
  lemma {:induction false} ColumnOrder(t: Text, column: nat, column': nat)
    requires column <= column'
    ensures ColumnIndex(t, column) <= ColumnIndex(t, column') <==>
            !(SplitsPair(t, column) && ColumnIndex(t, column') < LineEnd(t))
  {
    if t != [] && !IsEol(t[0]) && column > 0 {
      var u := Units(t[0]);
      if column < u {
        RunsToLineEnd(t[1..], column - u);
        IndexWithinLine(t, column');
      } else {
        ColumnOrder(t[1..], column - u, column' - u);
      }
    }
  }

  lemma {:induction false} RunsToLineEnd(t: Text, column: int)
    requires column < 0
    ensures ColumnIndex(t, column) == LineEnd(t)
  {
    if t != [] && !IsEol(t[0]) {
      RunsToLineEnd(t[1..], column - Units(t[0]));
    }
  }

  lemma {:induction false} IndexWithinLine(t: Text, column: int)
    ensures ColumnIndex(t, column) <= LineEnd(t)
  {
    if t != [] && !IsEol(t[0]) && column != 0 {
      IndexWithinLine(t[1..], column - Units(t[0]));
    }
  }

  lemma {:induction false} LocateFromLine(t: Text, line: nat, column: int)
    requires Locate(t, line, 0).Some?
    ensures var j := Locate(t, line, 0).value;
            Locate(t, line, column) == Some(j + ColumnIndex(t[j..], column))
    decreases |t|
  {
    hide ColumnIndex;
    if line == 0 {
      LineZeroStart(t);
      assert t[0..] == t;
    } else {
      var n, line' := Glyph(t), LinesLeft(t, line);
      var below := Locate(t[n..], line', 0);
      assert Locate(t, line, 0) == Shift(n, below);
      LocateFromLine(t[n..], line', column);
      assert t[n..][below.value..] == t[n + below.value..];
    }
  }

  lemma LineZeroStart(t: Text)
    ensures ColumnIndex(t, 0) == 0
  {
  }

  /** A position on an earlier line comes first. */
  lemma {:induction false} EarlierLine(t: Text, line: nat, column: int, line': nat, column': int)
    requires line < line' && Locate(t, line', column').Some?
    ensures Locate(t, line, column).Some?
    ensures Locate(t, line, column).value <= Locate(t, line', column').value
    decreases |t|
  {
    if line == 0 {
      LineEndBeforeNext(t, line', column');
      IndexWithinLine(t, column);
    } else {
      EarlierLine(t[Glyph(t)..], LinesLeft(t, line), column, LinesLeft(t, line'), column');
    }
  }

  lemma {:induction false} LineEndBeforeNext(t: Text, line: nat, column: int)
    requires line > 0 && Locate(t, line, column).Some?
    ensures LineEnd(t) <= Locate(t, line, column).value
    decreases |t|
  {
    if EolLength(t) == 0 {
      LineEndBeforeNext(t[1..], line, column);
    }
  }

  predicate Precedes(line: nat, column: nat, line': nat, column': nat) {
    line < line' || (line == line' && column <= column')
  }

  /** Two positions in order are located in order, unless the first splits a surrogate pair and the second is on the
      same line, before its end. */
  lemma LocateOrder(t: Text, line: nat, column: nat, line': nat, column': nat)
    requires Precedes(line, column, line', column')
    requires Locate(t, line', column').Some?
    ensures Locate(t, line, column).Some? && Locate(t, line, 0).Some?
    ensures var j := Locate(t, line, 0).value;
            Locate(t, line, column).value <= Locate(t, line', column').value <==>
            !(line == line' && SplitsPair(t[j..], column) && Locate(t, line', column').value < j + LineEnd(t[j..]))
  {
    LocateNone(t, line, 0);
    LocateNone(t, line', column');
    if line < line' {
      EarlierLine(t, line, 0, line', column');
      EarlierLine(t, line, column, line', column');
    } else {
      LocateFromLine(t, line, column);
      LocateFromLine(t, line, column');
      ColumnOrder(t[Locate(t, line, 0).value..], column, column');
    }
  }
}
