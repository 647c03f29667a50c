/**
 Line endings of a decoded text: normalisation to LF, what it does to positions, and the relation the server's copy
 of a document keeps to the client's, namely that some CRLF pairs have become LF.
 */
module Endings {
  import opened Unicode
  import opened Wrappers
  import opened Lines

  /** Every terminator becomes LF. */
  function Normalise(t: Text): Text {
    if t == [] then []
    else if EolLength(t) == 0 then [t[0]] + Normalise(t[1..])
    else [LF] + Normalise(t[EolLength(t)..])
  }

  function CrlfPairs(t: Text): nat {
    if t == [] then 0
    else (if EolLength(t) == 2 then 1 else 0) + CrlfPairs(t[Glyph(t)..])
  }

  /** A CR that is not the first half of a CRLF occurs nowhere. */
  predicate NoBareCr(t: Text) {
    forall k :: 0 <= k < |t| && t[k] == CR ==> k + 1 < |t| && t[k + 1] == LF
  }

  lemma {:induction false} NormaliseShape(t: Text)
    ensures CR !in Normalise(t)
    ensures |Normalise(t)| + CrlfPairs(t) == |t|
    decreases |t|
  {
    if t != [] {
      NormaliseShape(t[Glyph(t)..]);
    }
  }

  lemma {:induction false} NormaliseFixpoint(t: Text)
    requires CR !in t
    ensures Normalise(t) == t
  {
    if t != [] {
      assert forall c :: c in t[1..] ==> c in t;
      NormaliseFixpoint(t[1..]);
    }
  }

  lemma {:induction false} NormaliseIdempotent(t: Text)
    ensures Normalise(Normalise(t)) == Normalise(t)
  {
    NormaliseShape(t);
    NormaliseFixpoint(Normalise(t));
  }

  /** Normalisation commutes with looking a position up: it maps the prefix that ends at a position to the prefix of
      the normalised text that ends at the same position. */
  lemma {:induction false} NormaliseLocate(t: Text, line: nat, column: int)
    ensures Locate(t, line, column).None? <==> Locate(Normalise(t), line, column).None?
    ensures Locate(t, line, column).Some? ==>
              var i, k := Locate(t, line, column).value, Locate(Normalise(t), line, column).value;
              Normalise(t[..i]) == Normalise(t)[..k]
    decreases |t|
  {
    if line == 0 {
      NormaliseColumn(t, column);
    } else if t != [] {
      var n, line' := Glyph(t), LinesLeft(t, line);
      var u := Normalise(t);
      NormaliseUnit(t, line);
      LocateNext(t, line, column);
      LocateNext(u, line, column);
      hide Locate, Normalise, Glyph, LinesLeft;
      NormaliseLocate(t[n..], line', column);
      if Locate(t[n..], line', column).Some? {
        NormaliseGlyph(t, Locate(t, line, column).value);
      }
    }
  }

  /** A first unit normalises to one character, that ends a line if the unit does. */
  lemma NormaliseUnit(t: Text, line: nat)
    requires t != []
    ensures Normalise(t) != [] && Glyph(Normalise(t)) == 1 && Normalise(t)[1..] == Normalise(t[Glyph(t)..])
    ensures line > 0 ==> LinesLeft(Normalise(t), line) == LinesLeft(t, line)
  {
    NormaliseFirst(t);
  }

  lemma NormaliseGlyph(t: Text, i: nat)
    requires t != [] && Glyph(t) <= i <= |t|
    ensures Normalise(t[..i]) == [Normalise(t)[0]] + Normalise(t[Glyph(t)..][..i - Glyph(t)])
  {
    hide Normalise, EolLength, Glyph;
    GlyphPrefix(t, i);
    NormaliseFirst(t);
    NormaliseFirst(t[..i]);
  }

  /** A prefix that reaches past the first unit starts with the same unit. */
  lemma GlyphPrefix(t: Text, i: nat)
    requires t != [] && Glyph(t) <= i <= |t|
    ensures i > 0 && EolLength(t[..i]) == EolLength(t) && Glyph(t[..i]) == Glyph(t) && t[..i][0] == t[0]
    ensures t[..i][Glyph(t)..] == t[Glyph(t)..][..i - Glyph(t)]
  {
  }

  lemma NormaliseFirst(t: Text)
    requires t != []
    ensures Normalise(t) == [if EolLength(t) == 0 then t[0] else LF] + Normalise(t[Glyph(t)..])
  {
  }

  lemma {:induction false} NormaliseColumn(t: Text, column: int)
    ensures Normalise(t[..ColumnIndex(t, column)]) == Normalise(t)[..ColumnIndex(Normalise(t), column)]
  {
    if t != [] && !IsEol(t[0]) && column != 0 {
      var u := Normalise(t);
      assert u[1..] == Normalise(t[1..]);
      NormaliseColumn(t[1..], column - Units(t[0]));
      NormaliseGlyph(t, ColumnIndex(t, column));
    }
  }

  // ---- The server's copy against the client's ----

  /** The server's copy `s` is the client's text `c` with some CRLF pairs turned into LF. */
  predicate Same(s: Text, c: Text)
    decreases |c|
  {
    if c == [] then s == []
    else if EolLength(c) == 2 then
      || (s != [] && s[0] == LF && Same(s[1..], c[2..]))
      || (EolLength(s) == 2 && Same(s[2..], c[2..]))
    else s != [] && s[0] == c[0] && Same(s[1..], c[1..])
  }

  lemma {:induction false} SameRefl(t: Text)
    ensures Same(t, t)
    decreases |t|
  {
    if t != [] {
      var n := if EolLength(t) == 2 then 2 else 1;
      SameRefl(t[n..]);
    }
  }

  lemma NoBareCrTail(t: Text)
    requires t != [] && NoBareCr(t)
    ensures NoBareCr(t[Glyph(t)..])
    ensures t[0] == CR ==> EolLength(t) == 2
  {
  }

  lemma {:induction false} SameNormalise(s: Text, c: Text)
    requires Same(s, c) && NoBareCr(c)
    ensures Normalise(s) == Normalise(c)
    decreases |c|
  {
    if c != [] {
      NoBareCrTail(c);
      SameNormalise(s[Glyph(s)..], c[Glyph(c)..]);
    }
  }

  lemma {:induction false} NormaliseSame(c: Text)
    requires NoBareCr(c)
    ensures Same(Normalise(c), c)
    decreases |c|
  {
    if c != [] {
      NoBareCrTail(c);
      NormaliseSame(c[Glyph(c)..]);
      assert Normalise(c)[1..] == Normalise(c[Glyph(c)..]);
    }
  }

  lemma {:induction false} SameConcat(s: Text, s': Text, c: Text, c': Text)
    requires Same(s, c) && Same(s', c')
    ensures Same(s + s', c + c')
    decreases |c|
  {
    if c == [] {
      assert s + s' == s' && c + c' == c';
    } else if EolLength(c) == 2 {
      assert (c + c')[2..] == c[2..] + c';
      if s[0] == LF {
        assert (s + s')[1..] == s[1..] + s';
        SameConcat(s[1..], s', c[2..], c');
      } else {
        assert (s + s')[2..] == s[2..] + s';
        SameConcat(s[2..], s', c[2..], c');
      }
    } else if c == [CR] && c' != [] && c'[0] == LF {
      assert (c + c')[2..] == c'[1..];
      assert s == [CR] && (s + s')[2..] == s'[1..];
    } else {
      assert (c + c')[1..] == c[1..] + c' && (s + s')[1..] == s[1..] + s';
      SameConcat(s[1..], s', c[1..], c');
    }
  }

  /** A position cuts both copies into halves that are again the same. */
  lemma {:induction false} SameCut(s: Text, c: Text, line: nat, column: int)
    requires Same(s, c) && NoBareCr(c)
    ensures Locate(s, line, column).None? <==> Locate(c, line, column).None?
    ensures Locate(s, line, column).Some? ==>
              var i, k := Locate(s, line, column).value, Locate(c, line, column).value;
              Same(s[..i], c[..k]) && Same(s[i..], c[k..])
    decreases |c|
  {
    if line == 0 {
      hide ColumnIndex, Same, NoBareCr;
      SameColumn(s, c, column);
    } else if c == [] {
      assert s == [];
    } else {
      SameStep(s, c, line, column);
      hide Same, NoBareCr, Glyph, Locate;
      SameCut(s[Glyph(s)..], c[Glyph(c)..], LinesLeft(c, line), column);
      if Locate(s, line, column).Some? {
        SameCutTail(s, c, Locate(s, line, column).value, Locate(c, line, column).value);
      }
    }
  }

  lemma SameCutTail(s: Text, c: Text, i: nat, k: nat)
    requires Same(s, c) && NoBareCr(c) && c != [] && s != []
    requires Glyph(s) <= i <= |s| && Glyph(c) <= k <= |c|
    requires Same(s[Glyph(s)..][..i - Glyph(s)], c[Glyph(c)..][..k - Glyph(c)])
    requires Same(s[Glyph(s)..][i - Glyph(s)..], c[Glyph(c)..][k - Glyph(c)..])
    ensures Same(s[..i], c[..k]) && Same(s[i..], c[k..])
  {
    var n, m := Glyph(s), Glyph(c);
    SameGlyph(s, c);
    SameConcat(s[..n], s[n..][..i - n], c[..m], c[m..][..k - m]);
    assert s[..i] == s[..n] + s[n..][..i - n] && c[..k] == c[..m] + c[m..][..k - m];
    assert s[i..] == s[n..][i - n..] && c[k..] == c[m..][k - m..];
  }

  lemma SameGlyph(s: Text, c: Text)
    requires Same(s, c) && NoBareCr(c) && c != []
    ensures s != []
    ensures Same(s[..Glyph(s)], c[..Glyph(c)]) && Same(s[Glyph(s)..], c[Glyph(c)..])
    ensures EolLength(s) == 0 <==> EolLength(c) == 0
  {
    NoBareCrTail(c);
  }

  lemma SameTail(s: Text, c: Text)
    requires Same(s, c) && NoBareCr(c) && c != [] && !IsEol(c[0])
    ensures s != [] && s[0] == c[0] && Same(s[1..], c[1..]) && NoBareCr(c[1..])
  {
    NoBareCrTail(c);
  }

  lemma SameEnd(s: Text, c: Text)
    requires Same(s, c) && (c == [] || IsEol(c[0]))
    ensures s == [] || IsEol(s[0])
  {
  }

  lemma {:induction false} SameColumn(s: Text, c: Text, column: int)
    requires Same(s, c) && NoBareCr(c)
    ensures var i := ColumnIndex(c, column);
            && ColumnIndex(s, column) == i
            && i <= |s|
            && s[..i] == c[..i]
            && Same(s[..i], c[..i]) && Same(s[i..], c[i..])
  {
    hide Same, NoBareCr;
    var i := ColumnIndex(c, column);
    SameRefl(c[..i]);
    if c != [] && !IsEol(c[0]) && column != 0 {
      SameTail(s, c);
      SameColumn(s[1..], c[1..], column - Units(c[0]));
      assert ColumnIndex(s, column) == i;
      hide ColumnIndex;
      assert s[i..] == s[1..][i - 1..] && c[i..] == c[1..][i - 1..];
      assert c[..i] == [c[0]] + c[1..][..i - 1] && s[..i] == [s[0]] + s[1..][..i - 1];
    } else {
      if c == [] || IsEol(c[0]) {
        SameEnd(s, c);
      }
      assert s[0..] == s && c[0..] == c;
    }
  }

  /** The order of two positions is the same in both copies. */
  lemma {:induction false} SameOrder(s: Text, c: Text, line: nat, column: int, line': nat, column': int)
    requires Same(s, c) && NoBareCr(c)
    requires Locate(c, line, column).Some? && Locate(c, line', column').Some?
    requires Locate(s, line, column).Some? && Locate(s, line', column').Some?
    ensures Locate(s, line, column).value <= Locate(s, line', column').value <==>
            Locate(c, line, column).value <= Locate(c, line', column').value
    decreases |c|
  {
    SameStart(s, c, line, column);
    SameStart(s, c, line', column');
    hide Same, NoBareCr;
    if !AtStart(c, line, column) && !AtStart(c, line', column') {
      LocatedText(c, line, column);
      SameStep(s, c, line, column);
      SameStep(s, c, line', column');
      hide Locate, NextPosition, Glyph, AtStart;
      var (l, x) := NextPosition(c, line, column);
      var (l', x') := NextPosition(c, line', column');
      SameOrder(s[Glyph(s)..], c[Glyph(c)..], l, x, l', x');
    }
  }

  /** A position past the first unit is looked up in the rest, and in the same place in both copies. */
  lemma SameStep(s: Text, c: Text, line: nat, column: int)
    requires Same(s, c) && NoBareCr(c) && c != [] && !AtStart(c, line, column)
    ensures s != [] && Same(s[Glyph(s)..], c[Glyph(c)..]) && NoBareCr(c[Glyph(c)..])
    ensures var (line', column') := NextPosition(c, line, column);
            && Locate(c, line, column) == Shift(Glyph(c), Locate(c[Glyph(c)..], line', column'))
            && Locate(s, line, column) == Shift(Glyph(s), Locate(s[Glyph(s)..], line', column'))
  {
    NoBareCrTail(c);
    SameGlyph(s, c);
    SameStart(s, c, line, column);
    LocateNext(c, line, column);
    LocateNext(s, line, column);
    hide Locate;
  }

  lemma LocatedText(t: Text, line: nat, column: int)
    requires Locate(t, line, column).Some? && !AtStart(t, line, column)
    ensures t != []
  {
  }

  /** The position is the start of the text. */
  predicate AtStart(t: Text, line: nat, column: int) {
    line == 0 && (t == [] || IsEol(t[0]) || column == 0)
  }

  function NextPosition(t: Text, line: nat, column: int): (nat, int)
    requires t != []
  {
    if line == 0 then (0, column - Units(t[0])) else (LinesLeft(t, line), column)
  }

  lemma LocateNext(t: Text, line: nat, column: int)
    requires !AtStart(t, line, column) && t != []
    ensures var (line', column') := NextPosition(t, line, column);
            Locate(t, line, column) == Shift(Glyph(t), Locate(t[Glyph(t)..], line', column'))
  {
  }

  lemma SameStart(s: Text, c: Text, line: nat, column: int)
    requires Same(s, c) && NoBareCr(c)
    ensures AtStart(s, line, column) <==> AtStart(c, line, column)
    ensures Locate(s, line, column) == Some(0) <==> AtStart(s, line, column)
    ensures Locate(c, line, column) == Some(0) <==> AtStart(c, line, column)
  {
    if c != [] {
      SameGlyph(s, c);
    }
  }
}
