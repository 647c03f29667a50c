/**
 What the reader makes of any header section: lines padded with blanks in any way, ended by CRLF or LF, in any order and
 with duplicates; and of any length that such a section can name.
 */
module MessageHeaders {
  import opened Wrappers
  import opened Framing

  // ---- Header lines ----

  predicate Blank(s: string) {
    forall k :: 0 <= k < |s| ==> s[k] == ' ' || s[k] == '\t'
  }

  /** A key or a value: something that neither starts nor ends with a blank, on one line. */
  predicate Bare(s: string) {
    s != "" && !Blank([s[0]]) && !Blank([s[|s| - 1]]) && '\n' !in s
  }

  /** A header line: a key and a value, each between blanks, and whether a CR comes before the LF. */
  datatype Field = Field(before: string, key: string, after: string, gap: string, value: string, end: string, cr: bool)

  predicate WellFormed(f: Field) {
    && Blank(f.before) && Blank(f.after) && Blank(f.gap) && Blank(f.end)
    && Bare(f.key) && ':' !in f.key && Bare(f.value)
    && (f.cr || f.end != "" || f.value[|f.value| - 1] != '\r')
  }

  function CarriageReturn(cr: bool): string {
    if cr then "\r" else ""
  }

  function FieldText(f: Field): string {
    f.before + f.key + f.after + ":" + (f.gap + f.value + f.end)
  }

  function FieldLine(f: Field): string {
    FieldText(f) + CarriageReturn(f.cr) + "\n"
  }

  function FieldLines(fields: seq<Field>): string {
    if fields == [] then "" else FieldLine(fields[0]) + FieldLines(fields[1..])
  }

  lemma {:induction false} FirstAfterBlanks(left: string, s: string)
    requires Blank(left) && s != "" && !IsBlank(s[0])
    ensures FirstNotBlank(left + s) == |left|
  {
    if left != "" {
      FirstAfterBlanks(left[1..], s);
      assert (left + s)[1..] == left[1..] + s;
    } else {
      assert left + s == s;
    }
  }

  lemma {:induction false} LastBeforeBlanks(s: string, right: string)
    requires Blank(right) && s != "" && !IsBlank(s[|s| - 1])
    ensures AfterLastNotBlank(s + right) == |s|
    decreases |right|
  {
    if right != "" {
      var n := |right| - 1;
      LastBeforeBlanks(s, right[..n]);
      assert (s + right)[..|s + right| - 1] == s + right[..n];
    } else {
      assert s + right == s;
    }
  }

  /** Blanks around a key or a value are stripped, however many there are. */
  lemma StripPadded(left: string, s: string, right: string)
    requires Blank(left) && Blank(right) && Bare(s)
    ensures HttpHeaderStripWhitespace(left + s + right) == s
  {
    hide FirstNotBlank, AfterLastNotBlank;
    assert left + s + right == left + (s + right);
    FirstAfterBlanks(left, s + right);
    LastBeforeBlanks(s, right);
    assert (left + s + right)[|left|..] == s + right;
  }

  lemma BlankPlain(s: string)
    requires Blank(s)
    ensures ':' !in s && '\n' !in s && '\r' !in s
  {
  }

  lemma FieldHeader(f: Field)
    requires WellFormed(f)
    ensures '\n' !in FieldText(f) + CarriageReturn(f.cr)
    ensures HeaderOf(FieldText(f) + CarriageReturn(f.cr)) == Header(f.key, f.value)
  {
    hide HttpHeaderStripWhitespace, Find;
    var front, back := f.before + f.key + f.after, f.gap + f.value + f.end;
    var line := FieldText(f);
    var raw := line + CarriageReturn(f.cr);
    assert line == front + [':'] + back && line[|line| - 1] == back[|back| - 1];
    BlankPlain(f.before);
    BlankPlain(f.after);
    BlankPlain(f.gap);
    BlankPlain(f.end);
    assert f.end != "" ==> back[|back| - 1] == f.end[|f.end| - 1];
    assert if f.cr then raw[..|raw| - 1] == line else raw == line;
    FindConcat(front, ':', back);
    assert line[..|front|] == front && line[|front| + 1..] == back;
    StripPadded(f.before, f.key, f.after);
    StripPadded(f.gap, f.value, f.end);
  }

  lemma ReadField(f: Field, rest: string)
    requires WellFormed(f)
    ensures ReadHeader(Stream(FieldLine(f) + rest, false, false))
         == (Stream(rest, false, false), Header(f.key, f.value))
  {
    hide WellFormed, HeaderOf, FieldText, CarriageReturn;
    FieldHeader(f);
    ReadRaw(FieldText(f) + CarriageReturn(f.cr), rest);
  }

  lemma ReadRaw(raw: string, rest: string)
    requires '\n' !in raw
    ensures ReadHeader(Stream(raw + "\n" + rest, false, false)) == (Stream(rest, false, false), HeaderOf(raw))
  {
    hide HeaderOf, Find;
    FindConcat(raw, '\n', rest);
    var all := raw + "\n" + rest;
    assert all[..|raw|] == raw && all[|raw| + 1..] == rest;
  }

  function BlankLine(cr: bool): string {
    CarriageReturn(cr) + "\n"
  }

  lemma ReadBlank(cr: bool, rest: string)
    ensures ReadHeader(Stream(BlankLine(cr) + rest, false, false)) == (Stream(rest, false, false), EndOfHeaders)
  {
    ReadRaw(CarriageReturn(cr), rest);
  }

  // ---- Header sections ----

  /** No later line has the same key. */
  predicate IsLast(fields: seq<Field>, k: nat)
    requires k < |fields|
  {
    forall j :: k < j < |fields| ==> fields[j].key != fields[k].key
  }

  /** Some line has the key. */
  predicate HasKey(fields: seq<Field>, key: string) {
    exists k :: 0 <= k < |fields| && fields[k].key == key
  }

  /** The last line with a key decides its value. */
  ghost predicate Given(headers: Headers, fields: seq<Field>) {
    && (forall key :: key in headers <==> HasKey(fields, key))
    && (forall k :: 0 <= k < |fields| && IsLast(fields, k) ==>
                      fields[k].key in headers && headers[fields[k].key] == fields[k].value)
  }

  function Collect(headers: Headers, fields: seq<Field>): Headers
    decreases |fields|
  {
    if fields == [] then headers else Collect(headers[fields[0].key := fields[0].value], fields[1..])
  }

  lemma {:induction false} CollectKeys(headers: Headers, fields: seq<Field>, key: string)
    ensures key in Collect(headers, fields) <==> key in headers || HasKey(fields, key)
    ensures key in headers && !HasKey(fields, key) ==> Collect(headers, fields)[key] == headers[key]
    decreases |fields|
  {
    if fields != [] {
      CollectKeys(headers[fields[0].key := fields[0].value], fields[1..], key);
      if HasKey(fields, key) {
        var k :| 0 <= k < |fields| && fields[k].key == key;
        assert k > 0 ==> fields[1..][k - 1].key == key;
      }
      if HasKey(fields[1..], key) {
        var k :| 0 <= k < |fields[1..]| && fields[1..][k].key == key;
        assert fields[k + 1].key == key;
      }
    }
  }

  lemma {:induction false} CollectLast(headers: Headers, fields: seq<Field>, k: nat)
    requires k < |fields| && IsLast(fields, k)
    ensures fields[k].key in Collect(headers, fields) && Collect(headers, fields)[fields[k].key] == fields[k].value
    decreases |fields|
  {
    var headers' := headers[fields[0].key := fields[0].value];
    if k == 0 {
      CollectKeys(headers', fields[1..], fields[0].key);
      assert !HasKey(fields[1..], fields[0].key);
    } else {
      assert fields[1..][k - 1] == fields[k];
      CollectLast(headers', fields[1..], k - 1);
    }
  }

  lemma CollectGiven(fields: seq<Field>)
    ensures Given(Collect(map[], fields), fields)
  {
    hide Collect, HasKey;
    forall key ensures key in Collect(map[], fields) <==> HasKey(fields, key) {
      CollectKeys(map[], fields, key);
    }
    forall k | 0 <= k < |fields| && IsLast(fields, k)
      ensures fields[k].key in Collect(map[], fields) && Collect(map[], fields)[fields[k].key] == fields[k].value
    {
      CollectLast(map[], fields, k);
    }
  }

  lemma {:induction false} ReadFields(fields: seq<Field>, rest: string, headers: Headers)
    requires forall k :: 0 <= k < |fields| ==> WellFormed(fields[k])
    ensures ReadHeaders(Stream(FieldLines(fields) + rest, false, false), headers)
         == ReadHeaders(Stream(rest, false, false), Collect(headers, fields))
    decreases |fields|
  {
    hide ReadHeader, FieldLine, WellFormed;
    if fields == [] {
      assert FieldLines(fields) + rest == rest;
    } else {
      var more := FieldLines(fields[1..]) + rest;
      assert FieldLines(fields) + rest == FieldLine(fields[0]) + more;
      ReadField(fields[0], more);
      ReadFields(fields[1..], rest, headers[fields[0].key := fields[0].value]);
    }
  }

  lemma ReadSection(fields: seq<Field>, cr: bool, rest: string)
    requires forall k :: 0 <= k < |fields| ==> WellFormed(fields[k])
    ensures ReadHeaders(Stream(FieldLines(fields) + BlankLine(cr) + rest, false, false), map[])
         == (Stream(rest, false, false), Some(Collect(map[], fields)))
  {
    hide ReadHeader, FieldLines, Collect, BlankLine, WellFormed;
    assert FieldLines(fields) + BlankLine(cr) + rest == FieldLines(fields) + (BlankLine(cr) + rest);
    ReadFields(fields, BlankLine(cr) + rest, map[]);
    ReadBlank(cr, rest);
  }

  /** The headers handed over are those given, and the default type when none was given. */
  ghost predicate HandedOver(headers: Headers, fields: seq<Field>) {
    if HasKey(fields, "Content-Type") then Given(headers, fields)
    else
      && "Content-Type" in headers && headers["Content-Type"] == "application/vscode-jsonrpc; charset=utf-8"
      && Given(headers - {"Content-Type"}, fields)
  }

  /** What is read from a header section, a blank line and whatever comes after: without a length, or with one that is
      no number, nothing; with a negative one an error; otherwise as many characters as the last length says, if there
      are so many, with the headers given. */
  lemma SectionRead(fields: seq<Field>, cr: bool, rest: string)
    requires forall k :: 0 <= k < |fields| ==> WellFormed(fields[k])
    ensures var (s, outcome) := ReadMessage(Stream(FieldLines(fields) + BlankLine(cr) + rest, false, false));
            && (!HasKey(fields, "Content-Length") ==> outcome == Failed)
            && forall k :: 0 <= k < |fields| && IsLast(fields, k) && fields[k].key == "Content-Length" ==>
                             match FromChars(fields[k].value)
                             case None => outcome == Failed
                             case Some(n) =>
                               if n < 0 then outcome == LengthError
                               else if n > |rest| then outcome == Failed
                               else
                                 && outcome.Parsed? && outcome.content == rest[..n]
                                 && HandedOver(outcome.headers, fields)
                                 && s == Stream(rest[n..], false, false)
  {
    hide FieldLines, Collect, BlankLine, WellFormed, HasKey, FromChars, ReadHeaders;
    ReadSection(fields, cr, rest);
    CollectGiven(fields);
    var headers := Collect(map[], fields);
    DistinctHeaders();
    WithTypeHandedOver(headers, fields);
    hide HandedOver, WithContentType, CONTENT_LENGTH;
    ReadBody(headers, rest);
  }

  lemma WithTypeHandedOver(headers: Headers, fields: seq<Field>)
    requires Given(headers, fields)
    ensures HandedOver(WithContentType(headers), fields)
  {
    hide HasKey;
    if CONTENT_TYPE !in headers {
      assert headers[CONTENT_TYPE := DEFAULT_CONTENT_TYPE] - {CONTENT_TYPE} == headers;
    }
  }

  lemma ReadBody(headers: Headers, rest: string)
    ensures CONTENT_LENGTH in headers && FromChars(headers[CONTENT_LENGTH]).Some? ==>
              var n := FromChars(headers[CONTENT_LENGTH]).value;
              0 <= n <= |rest| ==>
                ReadContent(Stream(rest, false, false), headers)
                == (Stream(rest[n..], false, false), Parsed(WithContentType(headers), rest[..n]))
  {
  }

  function TextLine(line: string, cr: bool): string {
    line + CarriageReturn(cr) + "\n"
  }

  /** A line without a colon spoils the message, whatever comes before and after it. */
  lemma NoHeaderFails(fields: seq<Field>, line: string, cr: bool, rest: string)
    requires forall k :: 0 <= k < |fields| ==> WellFormed(fields[k])
    requires line != "" && ':' !in line && '\n' !in line && (cr || line[|line| - 1] != '\r')
    ensures ReadMessage(Stream(FieldLines(fields) + (TextLine(line, cr) + rest), false, false)).1 == Failed
  {
    hide *;
    ReadFields(fields, TextLine(line, cr) + rest, map[]);
    ReadTextLine(line, cr, rest);
    BadHeaderEnds(Stream(TextLine(line, cr) + rest, false, false), Collect(map[], fields));
    NoHeadersFail(Stream(FieldLines(fields) + (TextLine(line, cr) + rest), false, false));
  }

  lemma ReadTextLine(line: string, cr: bool, rest: string)
    requires line != "" && ':' !in line && '\n' !in line && (cr || line[|line| - 1] != '\r')
    ensures ReadHeader(Stream(TextLine(line, cr) + rest, false, false)).1.BadHeader?
  {
    hide ReadHeader, CarriageReturn, HeaderOf;
    BadLine(line, cr);
    ReadRaw(line + CarriageReturn(cr), rest);
  }

  lemma NoHeadersFail(s: Stream)
    requires ReadHeaders(s, map[]).1 == None
    ensures ReadMessage(s).1 == Failed
  {
  }

  lemma BadHeaderEnds(s: Stream, headers: Headers)
    requires ReadHeader(s).1.BadHeader?
    ensures ReadHeaders(s, headers).1 == None
  {
    hide ReadHeader;
  }

  lemma BadLine(line: string, cr: bool)
    requires line != "" && ':' !in line && '\n' !in line && (cr || line[|line| - 1] != '\r')
    ensures '\n' !in line + CarriageReturn(cr) && HeaderOf(line + CarriageReturn(cr)) == BadHeader
  {
    var raw := line + CarriageReturn(cr);
    assert if cr then raw[..|raw| - 1] == line else raw == line;
    FindNothing(line, ':');
  }
}
