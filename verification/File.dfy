/**
 The scanners of a stored file: from a (line, UTF-16 column) position to a byte offset, and from a byte offset back
 to a (line, byte column) pair. Each loop is proved against a recursive scan of the bytes; the scan is then proved
 against the reference positions of the decoded text.
 */
module File {
  import opened Unicode
  import opened Wrappers
  import opened Lines

  const CR_BYTE: Byte := 13
  const LF_BYTE: Byte := 10

  predicate IsEolByte(b: Byte) {
    b == CR_BYTE || b == LF_BYTE
  }

  /** The length of the line terminator the bytes start with, 0 if they start with none. */
  function EolBytes(raw: seq<Byte>): (n: nat)
    ensures n <= |raw| && n <= 2
  {
    if raw == [] || !IsEolByte(raw[0]) then 0
    else if raw[0] == CR_BYTE && |raw| > 1 && raw[1] == LF_BYTE then 2
    else 1
  }

  /** What skipping to a line does to the offset. */
  function SkipLines(raw: seq<Byte>, line: nat): (r: Option<nat>)
    ensures r.Some? ==> r.value <= |raw|
  {
    if line == 0 then Some(0)
    else if raw == [] then None
    else if EolBytes(raw) == 0 then Shift(1, SkipLines(raw[1..], line))
    else Shift(EolBytes(raw), SkipLines(raw[EolBytes(raw)..], line - 1))
  }

  /** The bytes one round of the column loop consumes, and the UTF-16 units it counts. */
  function ColumnStep(raw: seq<Byte>): (r: UnicodeResult)
    ensures r.size >= 1
  {
    match UTF8ToUTF16CharacterCount(raw)
    case Some(r) => r
    case None => UnicodeResult(0, 1)
  }

  /** What scanning for a column adds to the offset. On malformed bytes it may run past the end. */
  function ScanColumn(raw: seq<Byte>, column: int): nat
    decreases |raw|
  {
    if raw == [] || IsEolByte(raw[0]) || column == 0 then 0
    else
      var step := ColumnStep(raw);
      if step.size > |raw| then step.size
      else step.size + ScanColumn(raw[step.size..], column - step.count)
  }

  function OffsetOf(raw: seq<Byte>, line: nat, column: int): Option<nat> {
    match SkipLines(raw, line)
    case None => None
    case Some(start) => Some(start + ScanColumn(raw[start..], column))
  }

  /** A byte that starts no character is skipped, and takes up no column. */
  lemma StrayByte(b: Byte, raw: seq<Byte>, column: int)
    requires 0x80 <= b < 0xC0 || 0xF8 <= b
    ensures column != 0 ==> ScanColumn([b] + raw, column) == 1 + ScanColumn(raw, column)
    ensures column == 0 ==> ScanColumn([b] + raw, column) == 0
  {
    StartsNothing(b, raw);
    HighBytesPlain();
    assert ([b] + raw)[1..] == raw;
  }

  /** Three bytes that would decode to half a surrogate pair take up no column either. */
  lemma SurrogateBytes(b1: Byte, b2: Byte, raw: seq<Byte>, column: int)
    requires 0xA0 <= b1 < 0xC0 && 0x80 <= b2 < 0xC0 && column != 0
    ensures ScanColumn([0xED, b1, b2] + raw, column) == 3 + ScanColumn(raw, column)
  {
    SurrogateStep(b1, b2, raw);
    StrayByte(b1, [b2] + raw, column);
    StrayByte(b2, raw, column);
    assert ([0xED, b1, b2] + raw)[1..] == [b1] + ([b2] + raw);
  }

  lemma SurrogateStep(b1: Byte, b2: Byte, raw: seq<Byte>)
    requires 0xA0 <= b1 < 0xC0 && 0x80 <= b2 < 0xC0
    ensures ColumnStep([0xED, b1, b2] + raw) == UnicodeResult(0, 1)
  {
    SurrogateMasks(b1, b2);
  }

  lemma SurrogateMasks(b1: Byte, b2: Byte)
    requires 0xA0 <= b1 < 0xC0 && 0x80 <= b2 < 0xC0
    ensures var c := ((0xED as Byte & 0x0F) as bv32 << 12) | ((b1 & 0x3F) as bv32 << 6) | (b2 & 0x3F) as bv32;
            0xD800 <= c <= 0xDFFF
  {
  }

  lemma StartsNothing(b: Byte, raw: seq<Byte>)
    requires 0x80 <= b < 0xC0 || 0xF8 <= b
    ensures ColumnStep([b] + raw) == UnicodeResult(0, 1)
  {
    StartMasks(b);
  }

  lemma StartMasks(b: Byte)
    requires 0x80 <= b < 0xC0 || 0xF8 <= b
    ensures b & 0x80 != 0 && b & 0xE0 != 0xC0 && b & 0xF0 != 0xE0 && b & 0xF8 != 0xF0
  {
  }

  // ---- The scan against the reference ----

  lemma EncodeHead(text: Text)
    requires text != []
    ensures var raw := Encode(text);
            && raw != []
            && |EncodeScalar(text[0])| <= |raw|
            && raw[|EncodeScalar(text[0])|..] == Encode(text[1..])
            && (IsEolByte(raw[0]) <==> IsEol(text[0]))
            && (raw[0] == CR_BYTE <==> text[0] == CR)
            && (raw[0] == LF_BYTE <==> text[0] == LF)
            && ColumnStep(raw) == UnicodeResult(Units(text[0]), |EncodeScalar(text[0])|)
  {
    EncodedBytes(text[0]);
    DecodesEncoded(text[0], Encode(text[1..]));
    AsciiScalar(text[0]);
  }

  lemma AsciiScalar(c: Scalar)
    ensures c < 0x80 ==> |EncodeScalar(c)| == 1
    ensures EncodeScalar(c)[0] == CR_BYTE <==> c == CR
    ensures EncodeScalar(c)[0] == LF_BYTE <==> c == LF
  {
    EncodedBytes(c);
    if c < 0x80 {
      NarrowAscii(c);
    }
  }

  lemma NarrowAscii(c: bv32)
    requires c < 0x80
    ensures c as Byte == CR_BYTE <==> c == CR
    ensures c as Byte == LF_BYTE <==> c == LF
  {
  }

  lemma EncodeEol(text: Text)
    ensures EolBytes(Encode(text)) == EolLength(text)
    ensures EolLength(text) > 0 ==> Encode(text)[EolLength(text)..] == Encode(text[EolLength(text)..])
  {
    if text != [] {
      EncodeHead(text);
      AsciiScalar(text[0]);
      if |text| > 1 {
        EncodeHead(text[1..]);
        AsciiScalar(text[1]);
        assert text[1..][0] == text[1] && text[1..][1..] == text[2..];
      }
    }
  }

  lemma EncodeEmpty()
    ensures Encode([]) == []
  {
  }

  lemma EncodeFirst(text: Text)
    requires text != []
    ensures Encode(text) == EncodeScalar(text[0]) + Encode(text[1..])
  {
  }

  lemma {:induction false} EncodeSplit(text: Text, i: nat)
    requires i <= |text|
    ensures Encode(text) == Encode(text[..i]) + Encode(text[i..])
  {
    EncodeEmpty();
    hide Encode, EncodeScalar;
    if i == 0 {
      assert text[..0] == [] && text[0..] == text;
    } else {
      assert text[..i][1..] == text[1..][..i - 1];
      assert text[1..][i - 1..] == text[i..];
      EncodeFirst(text);
      EncodeFirst(text[..i]);
      EncodeSplit(text[1..], i - 1);
      Associate(EncodeScalar(text[0]), Encode(text[1..][..i - 1]), Encode(text[i..]));
    }
  }

  lemma Associate(a: seq<Byte>, b: seq<Byte>, c: seq<Byte>)
    ensures a + b + c == a + (b + c)
  {
  }

  /** Cutting a text cuts its bytes. */
  lemma EncodeCut(text: Text, i: nat)
    requires i <= |text|
    ensures |Encode(text[..i])| <= |Encode(text)|
    ensures Encode(text) == Encode(text[..i]) + Encode(text[i..])
    ensures Encode(text)[|Encode(text[..i])|..] == Encode(text[i..])
    ensures Encode(text)[..|Encode(text[..i])|] == Encode(text[..i])
  {
    hide Encode;
    EncodeSplit(text, i);
  }

  /** The number of bytes before the first line terminator. */
  function LineLength(raw: seq<Byte>): (n: nat)
    ensures n <= |raw|
  {
    if raw == [] || IsEolByte(raw[0]) then 0 else 1 + LineLength(raw[1..])
  }

  lemma PlainScalar(c: Scalar)
    requires !IsEol(c)
    ensures forall j :: 0 <= j < |EncodeScalar(c)| ==> !IsEolByte(EncodeScalar(c)[j])
  {
    EncodedBytes(c);
    AsciiScalar(c);
    HighBytesPlain();
  }

  lemma HighBytesPlain()
    ensures forall b: Byte :: b >= 0x80 ==> !IsEolByte(b)
  {
  }

  lemma {:induction false} LineLengthDrop(raw: seq<Byte>, k: nat)
    requires k <= |raw| && forall j :: 0 <= j < k ==> !IsEolByte(raw[j])
    ensures LineLength(raw) == k + LineLength(raw[k..])
  {
    if k > 0 {
      LineLengthDrop(raw[1..], k - 1);
      assert raw[1..][k - 1..] == raw[k..];
    } else {
      assert raw[0..] == raw;
    }
  }

  /** One step of the column scan over a valid line: it takes as many bytes as units from an ASCII byte, and more bytes
      than units from any other. */
  lemma ColumnStepBytes(text: Text, column: int)
    requires text != [] && !IsEol(text[0]) && column != 0
    ensures var raw, n, u := Encode(text), |EncodeScalar(text[0])|, Units(text[0]);
            && n <= |raw| && raw[n..] == Encode(text[1..])
            && ScanColumn(raw, column) == n + ScanColumn(raw[n..], column - u)
            && LineLength(raw) == n + LineLength(raw[n..])
            && (if raw[0] < 0x80 then n == u == 1 else u < n)
  {
    var raw, n := Encode(text), |EncodeScalar(text[0])|;
    EncodeHead(text);
    PlainScalar(text[0]);
    LineLengthDrop(raw, n);
    EncodedBytes(text[0]);
    WiderThanUnits(text[0]);
  }

  lemma WiderThanUnits(c: Scalar)
    ensures if EncodeScalar(c)[0] < 0x80 then |EncodeScalar(c)| == Units(c) == 1 else Units(c) < |EncodeScalar(c)|
  {
    EncodedBytes(c);
    if c < 0x80 {
      NarrowStaysLow(c);
    }
  }

  lemma NarrowStaysLow(c: bv32)
    requires c < 0x80
    ensures c as Byte < 0x80
  {
  }

  lemma ScanNothing(text: Text, column: int)
    requires text == [] || IsEol(text[0]) || column == 0
    ensures ScanColumn(Encode(text), column) == 0 && ColumnIndex(text, column) == 0
  {
    if text != [] {
      EncodeHead(text);
    }
  }

  lemma {:induction false} ScanColumnRefines(text: Text, column: int)
    ensures ScanColumn(Encode(text), column) == |Encode(text[..ColumnIndex(text, column)])|
  {
    hide ScanColumn, Encode, EncodeScalar;
    EncodeEmpty();
    if text == [] || IsEol(text[0]) || column == 0 {
      ScanNothing(text, column);
      assert text[..0] == [];
    } else {
      ColumnStepBytes(text, column);
      ScanColumnRefines(text[1..], column - Units(text[0]));
      var i := ColumnIndex(text, column);
      EncodeFirst(text[..i]);
      assert text[..i][1..] == text[1..][..i - 1];
    }
  }

  lemma {:induction false} SkipPlain(raw: seq<Byte>, k: nat, line: nat)
    requires k <= |raw| && line > 0
    requires forall j :: 0 <= j < k ==> !IsEolByte(raw[j])
    ensures SkipLines(raw, line) == Shift(k, SkipLines(raw[k..], line))
  {
    if k > 0 {
      SkipPlain(raw[1..], k - 1, line);
      assert raw[1..][k - 1..] == raw[k..];
    } else {
      assert raw[0..] == raw;
    }
  }

  lemma OffsetShift(raw: seq<Byte>, n: nat, line: nat, line': nat, column: int)
    requires n <= |raw|
    requires SkipLines(raw, line) == Shift(n, SkipLines(raw[n..], line'))
    ensures OffsetOf(raw, line, column) == Shift(n, OffsetOf(raw[n..], line', column))
  {
    hide SkipLines, ScanColumn;
    if SkipLines(raw[n..], line').Some? {
      var start := SkipLines(raw[n..], line').value;
      assert raw[n..][start..] == raw[n + start..];
    }
  }

  /** Skipping the first unit of a text is skipping its bytes. */
  lemma SkipGlyph(text: Text, line: nat)
    requires text != [] && line > 0
    ensures var k := |Encode(text[..Glyph(text)])|;
            && k <= |Encode(text)|
            && Encode(text)[k..] == Encode(text[Glyph(text)..])
            && SkipLines(Encode(text), line) == Shift(k, SkipLines(Encode(text)[k..], LinesLeft(text, line)))
  {
    var raw := Encode(text);
    EncodeCut(text, Glyph(text));
    EncodeHead(text);
    EncodeEol(text);
    if EolLength(text) == 0 {
      assert text[..1][1..] == [];
      assert Encode(text[..1]) == EncodeScalar(text[0]);
      PlainScalar(text[0]);
      SkipPlain(raw, |EncodeScalar(text[0])|, line);
    } else {
      EolPrefix(text);
    }
  }

  lemma EolPrefix(text: Text)
    requires text != [] && EolLength(text) > 0
    ensures |Encode(text[..Glyph(text)])| == EolLength(text)
  {
    EncodeCut(text, Glyph(text));
    EncodeEol(text);
  }

  /** The byte offset of a reference position. */
  function EncodedOffset(text: Text, i: Option<nat>): (r: Option<nat>)
    requires i.Some? ==> i.value <= |text|
  {
    if i.Some? then Some(|Encode(text[..i.value])|) else None
  }

  /** The byte scan lands at the UTF-8 length of the prefix that ends at the reference position. */
  lemma {:induction false} OffsetRefines(text: Text, line: nat, column: int)
    ensures OffsetOf(Encode(text), line, column) == EncodedOffset(text, Locate(text, line, column))
    decreases |text|
  {
    if line == 0 {
      ScanColumnRefines(text, column);
      assert Encode(text)[0..] == Encode(text);
    } else if text != [] {
      var n, line' := Glyph(text), LinesLeft(text, line);
      OffsetRefines(text[n..], line', column);
      OffsetStep(text, line, column);
      PrefixShift(text, n, Locate(text[n..], line', column));
    }
  }

  lemma OffsetRefinesAll(raw: seq<Byte>, line: nat, column: int)
    ensures forall text: Text :: Encode(text) == raw ==>
              OffsetOf(raw, line, column) == EncodedOffset(text, Locate(text, line, column))
  {
    forall text: Text | Encode(text) == raw
      ensures OffsetOf(raw, line, column) == EncodedOffset(text, Locate(text, line, column))
    {
      OffsetRefines(text, line, column);
    }
  }

  lemma OffsetStep(text: Text, line: nat, column: int)
    requires text != [] && line > 0
    ensures OffsetOf(Encode(text), line, column)
         == Shift(|Encode(text[..Glyph(text)])|, OffsetOf(Encode(text[Glyph(text)..]), LinesLeft(text, line), column))
  {
    SkipGlyph(text, line);
    OffsetShift(Encode(text), |Encode(text[..Glyph(text)])|, line, LinesLeft(text, line), column);
  }

  lemma PrefixShift(text: Text, n: nat, below: Option<nat>)
    requires n <= |text|
    requires below.Some? ==> below.value <= |text| - n
    ensures EncodedOffset(text, Shift(n, below)) == Shift(|Encode(text[..n])|, EncodedOffset(text[n..], below))
  {
    if below.Some? {
      var i := n + below.value;
      EncodeCut(text[..i], n);
      assert text[..i][..n] == text[..n];
      assert text[..i][n..] == text[n..][..below.value];
    }
  }

  /** After the line has been found, what is left of a valid file is again the encoding of a text. */
  lemma LineBoundary(text: Text, line: nat) returns (rest: Text)
    requires SkipLines(Encode(text), line).Some?
    ensures var start := SkipLines(Encode(text), line).value;
            start <= |Encode(text)| && Encode(text)[start..] == Encode(rest)
  {
    OffsetRefines(text, line, 0);
    var i := Locate(text, line, 0).value;
    EncodeCut(text, i);
    rest := text[i..];
  }

  /** The offset of a position never leaves a valid file, so the assertion before the final return cannot fail. */
  lemma OffsetInBounds(raw: seq<Byte>, line: nat, column: int)
    requires ValidUtf8(raw)
    ensures var r := OffsetOf(raw, line, column); r.Some? ==> r.value <= |raw|
  {
    var text: Text :| Encode(text) == raw;
    OffsetRefines(text, line, column);
    if Locate(text, line, column).Some? {
      EncodeCut(text, Locate(text, line, column).value);
    }
  }

  /** A sequence cut short at the end of the file does trip it: one lead byte of two, and a column past it. */
  lemma TruncatedSequenceEscapes()
    ensures OffsetOf([0xC3], 0, 5) == Some(2)
  {
    var raw: seq<Byte> := [0xC3];
    assert raw[0..] == raw;
    assert UTF8ToUTF16CharacterCount(raw) == Classify((0xC3 & 0x1F) << 6, 2);
  }

  // One round of each loop of GetOffset.

  lemma SkipRound(raw: seq<Byte>, at: nat, next: nat, lines: nat)
    requires at < next <= |raw| && lines > 0
    requires next == at + if EolBytes(raw[at..]) == 0 then 1 else EolBytes(raw[at..])
    ensures var lines' := if EolBytes(raw[at..]) == 0 then lines else lines - 1;
            Shift(at, SkipLines(raw[at..], lines)) == Shift(next, SkipLines(raw[next..], lines'))
  {
    assert raw[at..][next - at..] == raw[next..];
  }

  lemma ColumnRound(raw: seq<Byte>, at: nat, column: int)
    requires at < |raw| && !IsEolByte(raw[at]) && column != 0
    ensures var step := ColumnStep(raw[at..]);
            var later := if at + step.size > |raw| then 0 else ScanColumn(raw[at + step.size..], column - step.count);
            ScanColumn(raw[at..], column) == step.size + later
  {
    var step := ColumnStep(raw[at..]);
    if at + step.size <= |raw| {
      assert raw[at..][step.size..] == raw[at + step.size..];
    }
  }

  lemma ScanEnds(raw: seq<Byte>, at: nat, lines: nat, column: int)
    requires at <= |raw|
    ensures SkipLines(raw[at..], 0) == Some(0)
    ensures at == |raw| && lines > 0 ==> SkipLines(raw[at..], lines).None?
    ensures at == |raw| || IsEolByte(raw[at]) || column == 0 ==> ScanColumn(raw[at..], column) == 0
  {
  }

  /** Converts a (line, UTF-16 column) position to a byte offset. */
  method GetOffset(raw: seq<Byte>, line: nat, column: nat) returns (r: Option<nat>)
    ensures r == OffsetOf(raw, line, column)
    ensures ValidUtf8(raw) && r.Some? ==> r.value <= |raw|
    ensures forall text: Text :: Encode(text) == raw ==> r == EncodedOffset(text, Locate(text, line, column))
  {
    hide SkipLines, ScanColumn, Encode, Locate, EncodedOffset;
    OffsetRefinesAll(raw, line, column);
    var rawOffset, currentLine := 0, 0;
    assert raw[0..] == raw;
    while true
      invariant rawOffset <= |raw| && currentLine <= line
      invariant SkipLines(raw, line) == Shift(rawOffset, SkipLines(raw[rawOffset..], line - currentLine))
      decreases |raw| - rawOffset
    {
      ScanEnds(raw, rawOffset, line - currentLine, column);
      if currentLine == line {
        break;
      }
      if rawOffset >= |raw| {
        return None;
      }
      ghost var from, linesLeft := rawOffset, line - currentLine;
      var ch := raw[rawOffset];
      rawOffset := rawOffset + 1;
      if ch == CR_BYTE {
        if rawOffset < |raw| && raw[rawOffset] == LF_BYTE {
          rawOffset := rawOffset + 1;
        }
        currentLine := currentLine + 1;
      } else if ch == LF_BYTE {
        currentLine := currentLine + 1;
      }
      SkipRound(raw, from, rawOffset, linesLeft);
    }

    ghost var start := rawOffset;
    var utf16LinePos := 0;
    while rawOffset < |raw| && raw[rawOffset] != LF_BYTE && raw[rawOffset] != CR_BYTE
      invariant start + ScanColumn(raw[start..], column)
             == rawOffset + if rawOffset > |raw| then 0 else ScanColumn(raw[rawOffset..], column - utf16LinePos)
      decreases |raw| - rawOffset
    {
      ScanEnds(raw, rawOffset, 0, column - utf16LinePos);
      if column == utf16LinePos {
        return Some(rawOffset);
      }
      ColumnRound(raw, rawOffset, column - utf16LinePos);
      var res := UTF8ToUTF16CharacterCount(raw[rawOffset..]);
      if res.Some? {
        utf16LinePos := utf16LinePos + res.value.count;
        rawOffset := rawOffset + res.value.size - 1;
      }
      rawOffset := rawOffset + 1;
    }
    if rawOffset <= |raw| {
      ScanEnds(raw, rawOffset, 0, column - utf16LinePos);
    }
    if ValidUtf8(raw) {
      OffsetInBounds(raw, line, column);
    }
    assert ValidUtf8(raw) ==> rawOffset <= |raw|;
    return Some(rawOffset);
  }

  // ---- From an offset back to a line and a byte column ----

  /** The scan of an offset: the line and column counted so far, and the bytes still to be walked. */
  function LineColumnFrom(raw: seq<Byte>, offset: nat, line: nat, column: nat): Option<(nat, nat)>
    decreases |raw|
  {
    if offset == 0 then Some((line, column))
    else if raw == [] then None
    else if EolBytes(raw) == 0 then LineColumnFrom(raw[1..], offset - 1, line, column + 1)
    else if offset < EolBytes(raw) then None
    else LineColumnFrom(raw[EolBytes(raw)..], offset - EolBytes(raw), line + 1, 0)
  }

  /** Converts a byte offset to a line and a column, counted in bytes. */
  method GetLC(raw: seq<Byte>, offset: nat) returns (r: Option<(nat, nat)>)
    ensures r == LineColumnFrom(raw, offset, 0, 0)
  {
    var line, column, i := 0, 0, 0;
    assert raw[0..] == raw;
    while i < offset && i < |raw|
      invariant i <= |raw|
      invariant if i <= offset then
                  LineColumnFrom(raw, offset, 0, 0) == LineColumnFrom(raw[i..], offset - i, line, column)
                else LineColumnFrom(raw, offset, 0, 0) == None
    {
      ghost var from := i;
      var ch := raw[i];
      if ch == CR_BYTE {
        if i + 1 < |raw| && raw[i + 1] == LF_BYTE {
          i := i + 1;
        }
        line := line + 1;
        column := 0;
      } else if ch == LF_BYTE {
        line := line + 1;
        column := 0;
      } else {
        column := column + 1;
      }
      i := i + 1;
      assert raw[from..][i - from..] == raw[i..];
    }
    if i != offset {
      return None;
    }
    return Some((line, column));
  }

  /** Offset o falls between a CR and the LF that completes it. */
  predicate SplitsTerminator(raw: seq<Byte>, offset: nat) {
    0 < offset < |raw| && raw[offset - 1] == CR_BYTE && raw[offset] == LF_BYTE
  }

  /** An offset has no line and column exactly when it is past the end or inside a CRLF. */
  lemma {:induction false} LineColumnNone(raw: seq<Byte>, offset: nat, line: nat, column: nat)
    ensures LineColumnFrom(raw, offset, line, column).None? <==> offset > |raw| || SplitsTerminator(raw, offset)
    decreases |raw|
  {
    if offset > 0 && raw != [] {
      var n := EolBytes(raw);
      if n == 0 {
        LineColumnNone(raw[1..], offset - 1, line, column + 1);
      } else if n <= offset {
        LineColumnNone(raw[n..], offset - n, line + 1, 0);
      }
    }
  }

  // ---- Offsets in bytes against columns in UTF-16 units ----

  predicate Ascii(raw: seq<Byte>) {
    forall k :: 0 <= k < |raw| ==> raw[k] < 0x80
  }

  function Min(a: nat, b: nat): nat {
    if a < b then a else b
  }

  /** The length of a line in bytes, not counting its terminator. */
  function LengthOfLine(raw: seq<Byte>, line: nat): (n: nat)
    requires SkipLines(raw, line).Some?
    ensures SkipLines(raw, line).value + n <= |raw|
  {
    LineLength(raw[SkipLines(raw, line).value..])
  }

  /** An offset with a line and a column lies that many bytes into that line. */
  lemma {:induction false} LineColumnSplit(raw: seq<Byte>, offset: nat, line: nat, column: nat,
                                           line': nat, column': nat)
    requires LineColumnFrom(raw, offset, line, column) == Some((line', column'))
    ensures line <= line'
    ensures line == line' ==> column' == column + offset && offset <= LineLength(raw)
    ensures line < line' ==>
              && SkipLines(raw, line' - line).Some?
              && offset == SkipLines(raw, line' - line).value + column'
              && column' <= LengthOfLine(raw, line' - line)
    decreases |raw|
  {
    if offset > 0 {
      var n := EolBytes(raw);
      if n == 0 {
        LineColumnSplit(raw[1..], offset - 1, line, column + 1, line', column');
      } else {
        LineColumnSplit(raw[n..], offset - n, line + 1, 0, line', column');
        assert raw[n..][0..] == raw[n..];
      }
      if line < line' {
        NextUnitLine(raw, line' - line);
      }
    }
  }

  /** The first unit of a file, and where it leaves the start and the length of a later line. */
  lemma NextUnitLine(raw: seq<Byte>, line: nat)
    requires raw != [] && line > 0
    ensures var n := if EolBytes(raw) == 0 then 1 else EolBytes(raw);
            var line' := if EolBytes(raw) == 0 then line else line - 1;
            && SkipLines(raw, line) == Shift(n, SkipLines(raw[n..], line'))
            && (SkipLines(raw, line).Some? ==> LengthOfLine(raw, line) == LengthOfLine(raw[n..], line'))
  {
    var n := if EolBytes(raw) == 0 then 1 else EolBytes(raw);
    if SkipLines(raw, line).Some? {
      var start := SkipLines(raw, line).value;
      assert raw[n..][start - n..] == raw[start..];
    }
  }

  lemma {:induction false} ColumnAt(raw: seq<Byte>, column: nat, line0: nat, column0: nat)
    requires column <= LineLength(raw)
    ensures LineColumnFrom(raw, column, line0, column0) == Some((line0, column0 + column))
  {
    if column > 0 {
      ColumnAt(raw[1..], column - 1, line0, column0 + 1);
    }
  }

  /** So many bytes into a line is the offset with that line and that column. */
  lemma {:induction false} LineColumnAt(raw: seq<Byte>, line: nat, column: nat, line0: nat, column0: nat)
    requires SkipLines(raw, line).Some? && column <= LengthOfLine(raw, line)
    ensures LineColumnFrom(raw, SkipLines(raw, line).value + column, line0, column0)
         == Some((line0 + line, (if line == 0 then column0 else 0) + column))
    decreases |raw|
  {
    hide SkipLines, LengthOfLine, LineLength, LineColumnFrom;
    if line == 0 {
      FirstLine(raw);
      ColumnAt(raw, column, line0, column0);
    } else {
      LaterLine(raw, line);
      NextUnitLine(raw, line);
      LineColumnNext(raw, SkipLines(raw, line).value + column, line0, column0);
      if EolBytes(raw) == 0 {
        LineColumnAt(raw[1..], line, column, line0, column0 + 1);
      } else {
        LineColumnAt(raw[EolBytes(raw)..], line - 1, column, line0 + 1, 0);
      }
    }
  }

  lemma FirstLine(raw: seq<Byte>)
    ensures SkipLines(raw, 0) == Some(0) && LengthOfLine(raw, 0) == LineLength(raw)
  {
    assert raw[0..] == raw;
  }

  lemma LaterLine(raw: seq<Byte>, line: nat)
    requires line > 0 && SkipLines(raw, line).Some?
    ensures raw != [] && SkipLines(raw, line).value > 0 && SkipLines(raw, line).value >= EolBytes(raw)
  {
  }

  lemma LineColumnNext(raw: seq<Byte>, offset: nat, line: nat, column: nat)
    requires raw != [] && offset > 0 && offset >= EolBytes(raw)
    ensures var plain := EolBytes(raw) == 0;
            var n := if plain then 1 else EolBytes(raw);
            var (line', column') := if plain then (line, column + 1) else (line + 1, 0);
            LineColumnFrom(raw, offset, line, column) == LineColumnFrom(raw[n..], offset - n, line', column')
  {
  }

  /** A scan for a column ends at the end of the line or at least so many bytes into it. */
  lemma {:induction false} ScanReaches(text: Text, column: int)
    ensures var raw := Encode(text);
            && ScanColumn(raw, column) <= LineLength(raw)
            && (ScanColumn(raw, column) == LineLength(raw) || ScanColumn(raw, column) >= column)
  {
    if text != [] {
      EncodeHead(text);
      if !IsEol(text[0]) && column != 0 {
        ColumnStepBytes(text, column);
        ScanReaches(text[1..], column - Units(text[0]));
      }
    }
  }

  /** Within a line, a scan for a column stops after so many bytes exactly when they are all ASCII, or the line ends
      there. */
  lemma {:induction false} ScanIsBytes(text: Text, column: nat)
    requires column <= LineLength(Encode(text))
    ensures var raw := Encode(text);
            ScanColumn(raw, column) == column <==> Ascii(raw[..column]) || column == LineLength(raw)
  {
    hide Encode, EncodeScalar, LineLength, ScanColumn;
    if column == 0 {
      NoColumn(Encode(text));
    } else {
      NonEmptyLine(text);
      ColumnStepBytes(text, column);
      var raw, n, u := Encode(text), |EncodeScalar(text[0])|, Units(text[0]);
      var rest := raw[n..];
      if raw[0] < 0x80 {
        ScanIsBytes(text[1..], column - 1);
        AsciiCons(raw, column);
        hide Ascii;
      } else {
        assert raw[..column][0] == raw[0];
        ScanReaches(text[1..], column - u);
      }
    }
  }

  lemma AsciiCons(raw: seq<Byte>, k: nat)
    requires 0 < k <= |raw| && raw[0] < 0x80
    ensures Ascii(raw[..k]) <==> Ascii(raw[1..][..k - 1])
  {
    assert raw[..k] == [raw[0]] + raw[1..][..k - 1];
  }

  lemma NoColumn(raw: seq<Byte>)
    ensures ScanColumn(raw, 0) == 0
  {
  }

  lemma NonEmptyLine(text: Text)
    requires LineLength(Encode(text)) > 0
    ensures text != [] && !IsEol(text[0])
  {
    if text != [] {
      EncodeHead(text);
    }
  }

  /** The line and the byte column of an offset lead back to that offset exactly when no byte of the line before it is
      outside ASCII, or the offset is the end of the line. */
  lemma OffsetOfLineColumnIff(raw: seq<Byte>, offset: nat)
    requires ValidUtf8(raw) && LineColumnFrom(raw, offset, 0, 0).Some?
    ensures var (line, column) := LineColumnFrom(raw, offset, 0, 0).value;
            && column <= offset <= |raw|
            && (OffsetOf(raw, line, column) == Some(offset) <==>
                Ascii(raw[offset - column..offset]) || offset == |raw| || IsEolByte(raw[offset]))
  {
    hide ValidUtf8, Encode, LineColumnFrom, LineLength, ScanColumn, Ascii;
    var (line, column) := LineColumnFrom(raw, offset, 0, 0).value;
    LineColumnSplit(raw, offset, 0, 0, line, column);
    assert raw[0..] == raw;
    var start := SkipLines(raw, line).value;
    hide SkipLines;
    var rest := LineText(raw, line);
    ScanIsBytes(rest, column);
    assert raw[start..][..column] == raw[offset - column..offset];
    LineLengthEnds(raw[start..], column);
  }

  lemma LineText(raw: seq<Byte>, line: nat) returns (rest: Text)
    requires ValidUtf8(raw) && SkipLines(raw, line).Some?
    ensures raw[SkipLines(raw, line).value..] == Encode(rest)
  {
    var text: Text :| Encode(text) == raw;
    hide Encode, SkipLines;
    rest := LineBoundary(text, line);
  }

  lemma {:induction false} LineLengthEnds(raw: seq<Byte>, k: nat)
    requires k <= LineLength(raw)
    ensures k == LineLength(raw) <==> k == |raw| || IsEolByte(raw[k])
  {
    if k > 0 {
      LineLengthEnds(raw[1..], k - 1);
    }
  }

  /** The offset of a position always has its line; it has its column, clipped to the length of the line, exactly when
      the line is ASCII up to there, or the column is not less than the length of the line in bytes. */
  lemma LineColumnOfOffsetIff(raw: seq<Byte>, line: nat, column: nat)
    requires ValidUtf8(raw) && OffsetOf(raw, line, column).Some?
    ensures var start, length := SkipLines(raw, line).value, LengthOfLine(raw, line);
            var back := LineColumnFrom(raw, OffsetOf(raw, line, column).value, 0, 0);
            && back.Some? && back.value.0 == line
            && (back == Some((line, Min(column, length))) <==>
                column >= length || Ascii(raw[start..start + column]))
  {
    hide ValidUtf8, Encode, LineColumnFrom, LineLength, ScanColumn, SkipLines, Ascii;
    var start, length := SkipLines(raw, line).value, LengthOfLine(raw, line);
    var rest := LineText(raw, line);
    ScanReaches(rest, column);
    LineColumnAt(raw, line, ScanColumn(raw[start..], column), 0, 0);
    if column < length {
      ScanIsBytes(rest, column);
      assert raw[start..][..column] == raw[start..start + column];
    }
  }

  /** An offset that does not come back: that of the last letter of a word that starts with a letter outside ASCII. Its
      byte column is one more than its UTF-16 column, and leads past it to the end of the line. */
  lemma LineColumnCountsBytes()
    ensures ValidUtf8(WORD)
    ensures LineColumnFrom(WORD, 3, 0, 0) == Some((0, 3))
    ensures OffsetOf(WORD, 0, 3) == Some(4)
  {
    EncodedWord();
    WordLine();
    WordScan();
    hide Encode, LineLength, ScanColumn, WORD;
    ColumnAt(WORD, 3, 0, 0);
    assert WORD[0..] == WORD;
  }

  lemma WordScan()
    ensures ScanColumn(WORD, 3) == 4
  {
    EncodedWord();
    WordLine();
    var text: Text := [0xE9, 0x61, 0x62];
    assert WORD[..3][0] == 0xC3;
    hide Encode, LineLength, ScanColumn, WORD;
    ScanIsBytes(text, 3);
    ScanReaches(text, 3);
  }

  const WORD: seq<Byte> := [0xC3, 0xA9, 0x61, 0x62]

  lemma WordLine()
    ensures LineLength(WORD) == 4
  {
    assert WORD[1..] == [0xA9, 0x61, 0x62] && WORD[1..][1..] == [0x61, 0x62] && WORD[1..][1..][1..] == [0x62];
  }

  lemma EncodedWord()
    ensures Encode([0xE9, 0x61, 0x62]) == WORD
  {
    var text: Text := [0xE9, 0x61, 0x62];
    assert text[1..] == [0x61, 0x62] && text[1..][1..] == [0x62] && text[1..][1..][1..] == [];
    assert EncodeScalar(0xE9) == [0xC3, 0xA9] && EncodeScalar(0x61) == [0x61] && EncodeScalar(0x62) == [0x62];
  }

  // ---- On ASCII files ----

  lemma {:induction false} AsciiValid(raw: seq<Byte>)
    requires Ascii(raw)
    ensures ValidUtf8(raw)
  {
    if raw == [] {
      assert Encode([]) == raw;
    } else {
      AsciiValid(raw[1..]);
      var rest: Text :| Encode(rest) == raw[1..];
      AsciiByte(raw[0]);
      var c: Scalar := raw[0] as bv32;
      EncodedBytes(c);
      assert ([c] + rest)[1..] == rest;
      assert Encode([c] + rest) == [raw[0]] + raw[1..];
    }
  }

  lemma AsciiByte(b: Byte)
    requires b < 0x80
    ensures b as bv32 < 0x80
    ensures (b as bv32) as Byte == b
  {
  }

  /** On ASCII files the line and column of an offset lead back to that offset. */
  lemma OffsetOfLineColumn(raw: seq<Byte>, offset: nat)
    requires Ascii(raw) && LineColumnFrom(raw, offset, 0, 0).Some?
    ensures var (line, column) := LineColumnFrom(raw, offset, 0, 0).value;
            OffsetOf(raw, line, column) == Some(offset)
  {
    hide ValidUtf8, OffsetOf, LineColumnFrom;
    AsciiValid(raw);
    OffsetOfLineColumnIff(raw, offset);
    var (_, column) := LineColumnFrom(raw, offset, 0, 0).value;
    assert Ascii(raw[offset - column..offset]);
  }

  /** On ASCII files the offset of a position has that line, and that column clipped to the length of the line. */
  lemma LineColumnOfOffset(raw: seq<Byte>, line: nat, column: nat)
    requires Ascii(raw) && OffsetOf(raw, line, column).Some?
    ensures LineColumnFrom(raw, OffsetOf(raw, line, column).value, 0, 0)
         == Some((line, Min(column, LengthOfLine(raw, line))))
  {
    AsciiValid(raw);
    LineColumnOfOffsetIff(raw, line, column);
  }
}
