/**
 Message framing, the "Base Protocol" of LSP 3.17: header lines, a blank line, and as many bytes of content as the
 Content-Length header says. The writer's frames are what the reader reads back.
 */
module Framing {
  import opened Wrappers

  const MAX_STREAMSIZE := 0x7FFF_FFFF_FFFF_FFFF

  // ---- Decimal numbers ----

  function Digit(d: nat): char
    requires d < 10
  {
    ('0' as int + d) as char
  }

  predicate IsDigit(c: char) {
    '0' <= c <= '9'
  }

  /** A number as an output stream prints it. */
  function Decimal(n: nat): (s: string)
    ensures |s| > 0 && forall k :: 0 <= k < |s| ==> IsDigit(s[k])
  {
    if n < 10 then [Digit(n)] else Decimal(n / 10) + [Digit(n % 10)]
  }

  function DigitsValue(s: string, acc: nat): nat {
    if s == "" || !IsDigit(s[0]) then acc else DigitsValue(s[1..], 10 * acc + (s[0] as int - '0' as int))
  }

  /** The number a text starts with, None if it starts with none or the number is not a signed 64-bit one. */
  function FromChars(s: string): Option<int> {
    var negative := s != "" && s[0] == '-';
    var digits := if negative then s[1..] else s;
    if digits == "" || !IsDigit(digits[0]) then None
    else
      var n: int := DigitsValue(digits, 0);
      if negative then (if n <= MAX_STREAMSIZE + 1 then Some(-n) else None)
      else if n <= MAX_STREAMSIZE then Some(n) else None
  }

  lemma {:induction false} DigitsValueAppend(s: string, c: char, acc: nat)
    requires IsDigit(c) && forall k :: 0 <= k < |s| ==> IsDigit(s[k])
    ensures DigitsValue(s + [c], acc) == 10 * DigitsValue(s, acc) + (c as int - '0' as int)
  {
    if s != "" {
      assert (s + [c])[1..] == s[1..] + [c];
      DigitsValueAppend(s[1..], c, 10 * acc + (s[0] as int - '0' as int));
    }
  }

  lemma {:induction false} DecimalValue(n: nat)
    ensures DigitsValue(Decimal(n), 0) == n
  {
    if n >= 10 {
      DecimalValue(n / 10);
      DigitsValueAppend(Decimal(n / 10), Digit(n % 10), 0);
    }
  }

  /** The decimal parser inverts the decimal printer on every 63-bit number. */
  lemma {:induction false} DecimalRoundTrip(n: nat)
    requires n <= MAX_STREAMSIZE
    ensures FromChars(Decimal(n)) == Some(n)
  {
    DecimalValue(n);
  }

  // ---- Strings ----

  /** The index of the first occurrence, the length of the string if there is none. */
  function Find(s: string, c: char): (k: nat)
    ensures k <= |s|
  {
    if s == "" || s[0] == c then 0 else 1 + Find(s[1..], c)
  }

  predicate IsBlank(c: char) {
    c == ' ' || c == '\t'
  }

  function FirstNotBlank(s: string): (k: nat)
    ensures k <= |s|
  {
    if s == "" || !IsBlank(s[0]) then 0 else 1 + FirstNotBlank(s[1..])
  }

  /** One past the last character that is not blank, 0 if there is none. */
  function AfterLastNotBlank(s: string): (k: nat)
    ensures k <= |s|
  {
    if s == "" then 0
    else if !IsBlank(s[|s| - 1]) then |s|
    else AfterLastNotBlank(s[..|s| - 1])
  }

  /** Strips blanks on both sides; a string of blanks alone is left as it is. */
  function HttpHeaderStripWhitespace(value: string): string {
    var start := FirstNotBlank(value);
    var value' := if start < |value| then value[start..] else value;
    var end := AfterLastNotBlank(value');
    if end > 0 then value'[..end] else value'
  }

  lemma {:induction false} FindConcat(a: string, c: char, b: string)
    requires c !in a
    ensures Find(a + [c] + b, c) == |a|
  {
    if a != "" {
      assert (a + [c] + b)[1..] == a[1..] + [c] + b;
      FindConcat(a[1..], c, b);
    }
  }

  lemma {:induction false} FindFinds(s: string, c: char)
    ensures Find(s, c) < |s| ==> s[Find(s, c)] == c
  {
    if s != "" {
      FindFinds(s[1..], c);
    }
  }

  lemma {:induction false} FindNothing(s: string, c: char)
    requires c !in s
    ensures Find(s, c) == |s|
  {
    if s != "" {
      FindNothing(s[1..], c);
    }
  }

  lemma StripOneBlank(s: string)
    requires s != "" && !IsBlank(s[0]) && !IsBlank(s[|s| - 1])
    ensures HttpHeaderStripWhitespace(s) == s
    ensures HttpHeaderStripWhitespace(" " + s) == s
  {
    assert (" " + s)[1..] == s;
    assert FirstNotBlank(" " + s) == 1 + FirstNotBlank(s);
  }

  // ---- The input stream ----

  /** What is left to read, and the two state bits of the stream. */
  datatype Stream = Stream(rest: string, eof: bool, fail: bool) {
    predicate Good() {
      !eof && !fail
    }

    /** Reads a line without its LF. A line that ends at the end of the input still counts if it is not empty. */
    function GetLine(): (Stream, string) {
      var k := Find(rest, '\n');
      if !Good() then (this.(fail := true), "")
      else if k < |rest| then (Stream(rest[k + 1..], false, false), rest[..k])
      else (Stream("", true, rest == ""), rest)
    }

    /** Reads exactly `n` characters, or as many as there are and fails. */
    function Read(n: nat): (Stream, string) {
      if !Good() then (this.(fail := true), "")
      else if n <= |rest| then (Stream(rest[n..], false, false), rest[..n])
      else (Stream("", true, true), rest)
    }
  }

  class InputStream {
    var state: Stream

    constructor (content: string)
      ensures state == Stream(content, false, false)
    {
      state := Stream(content, false, false);
    }

    method GetLine() returns (line: string)
      modifies this
      ensures (state, line) == old(state).GetLine()
    {
      var (state', line') := state.GetLine();
      state, line := state', line';
    }

    method Read(n: nat) returns (content: string)
      modifies this
      ensures (state, content) == old(state).Read(n)
    {
      var (state', content') := state.Read(n);
      state, content := state', content';
    }
  }

  // ---- Reading a message ----

  type Headers = map<string, string>

  datatype HeaderLine = EndOfHeaders | BadHeader | Header(key: string, value: string)

  /** The outcome of reading a message. Resizing a string to a negative length throws. */
  datatype Outcome = Parsed(headers: Headers, content: string) | Failed | LengthError

  const CONTENT_LENGTH := "Content-Length"
  const CONTENT_TYPE := "Content-Type"
  const DEFAULT_CONTENT_TYPE := "application/vscode-jsonrpc; charset=utf-8"

  function ReadHeader(s: Stream): (r: (Stream, HeaderLine))
    ensures r.1.Header? ==> |r.0.rest| < |s.rest|
  {
    var (s', raw) := s.GetLine();
    (s', if s'.fail then BadHeader else HeaderOf(raw))
  }

  function HeaderOf(raw: string): HeaderLine {
    var line := if raw != "" && raw[|raw| - 1] == '\r' then raw[..|raw| - 1] else raw;
    var pos := Find(line, ':');
    if line == "" then EndOfHeaders
    else if pos == |line| then BadHeader
    else Header(HttpHeaderStripWhitespace(line[..pos]), HttpHeaderStripWhitespace(line[pos + 1..]))
  }

  /** Reads header lines up to the blank line; None if one of them is not a header. */
  function ReadHeaders(s: Stream, headers: Headers): (Stream, Option<Headers>)
    decreases |s.rest|
  {
    var (s', line) := ReadHeader(s);
    match line
    case EndOfHeaders => (s', Some(headers))
    case BadHeader => (s', None)
    case Header(key, value) => ReadHeaders(s', headers[key := value])
  }

  function WithContentType(headers: Headers): Headers {
    if CONTENT_TYPE in headers then headers else headers[CONTENT_TYPE := DEFAULT_CONTENT_TYPE]
  }

  function ReadContent(s: Stream, headers: Headers): (Stream, Outcome) {
    if CONTENT_LENGTH !in headers then (s, Failed)
    else
      match FromChars(headers[CONTENT_LENGTH])
      case None => (s, Failed)
      case Some(n) =>
        if n < 0 then (s, LengthError)
        else
          var (s', content) := s.Read(n);
          if s'.fail then (s', Failed) else (s', Parsed(WithContentType(headers), content))
  }

  function ReadMessage(s: Stream): (Stream, Outcome) {
    var (s', headers) := ReadHeaders(s, map[]);
    match headers
    case None => (s', Failed)
    case Some(headers) => ReadContent(s', headers)
  }

  method ParseHttpHeader(input: InputStream) returns (header: Option<(string, string)>, endOfHeaders: bool)
    modifies input
    ensures input.state == ReadHeader(old(input.state)).0
    ensures endOfHeaders == ReadHeader(old(input.state)).1.EndOfHeaders?
    ensures header == match ReadHeader(old(input.state)).1
                      case Header(key, value) => Some((key, value))
                      case _ => None
  {
    hide Find, HttpHeaderStripWhitespace;
    endOfHeaders := false;
    var line := input.GetLine();
    if input.state.fail {
      return None, endOfHeaders;
    }
    if line != "" && line[|line| - 1] == '\r' {
      line := line[..|line| - 1];
    }
    if line == "" {
      return None, true;
    }
    var pos := Find(line, ':');
    if pos == |line| {
      return None, endOfHeaders;
    }
    var key := HttpHeaderStripWhitespace(line[..pos]);
    var val := HttpHeaderStripWhitespace(line[pos + 1..]);
    return Some((key, val)), endOfHeaders;
  }

  method ParseHttpMessage(input: InputStream) returns (r: Outcome)
    modifies input
    ensures (input.state, r) == ReadMessage(old(input.state))
  {
    var headers: Headers := map[];
    while true
      invariant ReadHeaders(old(input.state), map[]) == ReadHeaders(input.state, headers)
      decreases |input.state.rest|
    {
      var header, endOfHeaders := ParseHttpHeader(input);
      if endOfHeaders {
        break;
      }
      if header.None? {
        return Failed;
      }
      headers := headers[header.value.0 := header.value.1];
    }
    if |headers| == 0 {
      return Failed;
    }
    if CONTENT_LENGTH !in headers {
      return Failed;
    }
    if CONTENT_TYPE !in headers {
      headers := headers[CONTENT_TYPE := DEFAULT_CONTENT_TYPE];
    }
    var contentLength := FromChars(headers[CONTENT_LENGTH]);
    if contentLength.None? {
      return Failed;
    }
    if contentLength.value < 0 {
      return LengthError;
    }
    var content := input.Read(contentLength.value);
    if input.state.fail {
      return Failed;
    }
    return Parsed(headers, content);
  }

  // ---- Writing a message ----

  function Line(key: string, value: string): string {
    key + ": " + value + "\r\n"
  }

  /** The three pieces of a frame, in the order they are written: the length, the type with the blank line after it,
      and the body. */
  function Piece(body: string, k: nat): string
    requires k < 3
  {
    if k == 0 then Line(CONTENT_LENGTH, Decimal(|body|))
    else if k == 1 then Line(CONTENT_TYPE, DEFAULT_CONTENT_TYPE) + "\r\n"
    else body
  }

  function Frame(body: string): string {
    Piece(body, 0) + Piece(body, 1) + Piece(body, 2)
  }

  function Frames(bodies: seq<string>): string {
    if bodies == [] then "" else Frame(bodies[0]) + Frames(bodies[1..])
  }

  /** The headers a reader finds in front of a body. */
  function FrameHeaders(body: string): Headers {
    map[CONTENT_LENGTH := Decimal(|body|), CONTENT_TYPE := DEFAULT_CONTENT_TYPE]
  }

  /** Reads one header line that was written as "key: value". */
  lemma ReadHeaderLine(key: string, value: string, rest: string)
    requires Plain(key) && ':' !in key && Plain(value)
    ensures ReadHeader(Stream(Line(key, value) + rest, false, false))
         == (Stream(rest, false, false), Header(key, value))
  {
    var raw := key + ": " + value + "\r";
    var all := Line(key, value) + rest;
    assert all == raw + ['\n'] + rest;
    FindConcat(raw, '\n', rest);
    assert all[..|raw|] == raw && all[|raw| + 1..] == rest;
    hide Find, HeaderOf, Plain;
    HeaderOfLine(key, value);
  }

  lemma HeaderOfLine(key: string, value: string)
    requires Plain(key) && ':' !in key && Plain(value)
    ensures HeaderOf(key + ": " + value + "\r") == Header(key, value)
  {
    hide HttpHeaderStripWhitespace;
    var raw := key + ": " + value + "\r";
    var line := raw[..|raw| - 1];
    assert line == key + [':'] + (" " + value);
    FindConcat(key, ':', " " + value);
    assert line[..|key|] == key && line[|key| + 1..] == " " + value;
    StripOneBlank(key);
    StripOneBlank(value);
  }

  lemma ReadBlankLine(rest: string)
    ensures ReadHeader(Stream("\r\n" + rest, false, false)) == (Stream(rest, false, false), EndOfHeaders)
  {
    assert "\r\n" + rest == "\r" + ['\n'] + rest;
    FindConcat("\r", '\n', rest);
  }

  lemma Regroup(a: string, b: string, c: string, d: string, e: string)
    ensures a + (b + c) + d + e == a + (b + (c + (d + e)))
  {
  }

  /** A key or value that a header line hands over as it is. */
  predicate Plain(s: string) {
    s != "" && !IsBlank(s[0]) && !IsBlank(s[|s| - 1]) && '\n' !in s
  }

  lemma LengthHeader(body: string)
    ensures Plain(CONTENT_LENGTH) && ':' !in CONTENT_LENGTH && Plain(Decimal(|body|))
  {
    DecimalPlain(|body|);
  }

  lemma DecimalPlain(n: nat)
    ensures Plain(Decimal(n))
  {
    hide Decimal;
  }

  lemma TypeHeader()
    ensures Plain(CONTENT_TYPE) && ':' !in CONTENT_TYPE
  {
  }

  lemma TypeValue()
    ensures Plain(DEFAULT_CONTENT_TYPE)
  {
  }

  lemma DistinctHeaders()
    ensures CONTENT_LENGTH != CONTENT_TYPE
  {
  }

  /** A frame reads back as its body, and leaves exactly what follows it. */
  lemma FrameRoundTrip(body: string, rest: string)
    requires |body| <= MAX_STREAMSIZE
    ensures ReadMessage(Stream(Frame(body) + rest, false, false))
         == (Stream(rest, false, false), Parsed(FrameHeaders(body), body))
  {
    hide CONTENT_LENGTH, CONTENT_TYPE, DEFAULT_CONTENT_TYPE, Decimal, FromChars, Line, ReadHeader;
    LengthHeader(body);
    TypeHeader();
    TypeValue();
    DistinctHeaders();
    var first, second := Line(CONTENT_LENGTH, Decimal(|body|)), Line(CONTENT_TYPE, DEFAULT_CONTENT_TYPE);
    var afterSecond := "\r\n" + (body + rest);
    Regroup(first, second, "\r\n", body, rest);
    ReadHeaderLine(CONTENT_LENGTH, Decimal(|body|), second + afterSecond);
    ReadHeaderLine(CONTENT_TYPE, DEFAULT_CONTENT_TYPE, afterSecond);
    ReadBlankLine(body + rest);
    ReadTwoHeaders(Stream(Frame(body) + rest, false, false), Stream(second + afterSecond, false, false),
                   Stream(afterSecond, false, false), Stream(body + rest, false, false),
                   CONTENT_LENGTH, Decimal(|body|), CONTENT_TYPE, DEFAULT_CONTENT_TYPE);
    DecimalRoundTrip(|body|);
    ReadsBody(body, rest);
  }

  lemma ReadTwoHeaders(s0: Stream, s1: Stream, s2: Stream, s3: Stream, k0: string, v0: string, k1: string, v1: string)
    requires k0 != k1
    requires ReadHeader(s0) == (s1, Header(k0, v0)) && ReadHeader(s1) == (s2, Header(k1, v1))
    requires ReadHeader(s2) == (s3, EndOfHeaders)
    ensures ReadHeaders(s0, map[]) == (s3, Some(map[k0 := v0, k1 := v1]))
  {
    hide ReadHeader;
    assert ReadHeaders(s2, map[k0 := v0, k1 := v1]) == (s3, Some(map[k0 := v0, k1 := v1]));
    assert map[k0 := v0][k1 := v1] == map[k0 := v0, k1 := v1];
    assert ReadHeaders(s1, map[k0 := v0]) == ReadHeaders(s2, map[k0 := v0, k1 := v1]);
    assert map[][k0 := v0] == map[k0 := v0];
  }

  lemma ReadsBody(body: string, rest: string)
    ensures Stream(body + rest, false, false).Read(|body|) == (Stream(rest, false, false), body)
  {
  }

  /** Reads messages one after the other as long as there is input; None if one of them cannot be read. */
  function ReadAll(s: Stream, n: nat): (Stream, Option<seq<string>>)
    decreases n
  {
    if n == 0 then (s, Some([]))
    else
      var (s', first) := ReadMessage(s);
      if !first.Parsed? then (s', None)
      else
        var (s'', others) := ReadAll(s', n - 1);
        (s'', if others.None? then None else Some([first.content] + others.value))
  }

  /** A stream of frames reads back as exactly their bodies, in order, and leaves exactly what follows them. */
  lemma {:induction false} StreamRoundTrip(bodies: seq<string>, rest: string)
    requires forall k :: 0 <= k < |bodies| ==> |bodies[k]| <= MAX_STREAMSIZE
    ensures ReadAll(Stream(Frames(bodies) + rest, false, false), |bodies|) == (Stream(rest, false, false), Some(bodies))
  {
    hide Frame, ReadMessage;
    if bodies == [] {
      assert Frames(bodies) + rest == rest;
    } else {
      assert Frames(bodies) + rest == Frame(bodies[0]) + (Frames(bodies[1..]) + rest);
      FrameRoundTrip(bodies[0], Frames(bodies[1..]) + rest);
      StreamRoundTrip(bodies[1..], rest);
      assert bodies == [bodies[0]] + bodies[1..];
    }
  }

  // ---- The reader never looks past a message ----

  function Extend(s: Stream, more: string): Stream {
    s.(rest := s.rest + more)
  }

  lemma {:induction false} FindExtended(s: string, c: char, more: string)
    requires Find(s, c) < |s|
    ensures Find(s + more, c) == Find(s, c)
  {
    if s[0] != c {
      assert (s + more)[1..] == s[1..] + more;
      FindExtended(s[1..], c, more);
    }
  }

  /** A line read that leaves the stream good was complete. */
  lemma CompleteLine(s: Stream)
    requires s.GetLine().0.Good()
    ensures s.Good() && Find(s.rest, '\n') < |s.rest|
  {
    hide Find;
  }

  lemma LineExtended(s: Stream, more: string)
    requires s.Good() && Find(s.rest, '\n') < |s.rest|
    ensures Extend(s, more).GetLine() == (Extend(s.GetLine().0, more), s.GetLine().1)
  {
    FindExtended(s.rest, '\n', more);
    var k := Find(s.rest, '\n');
    hide Find;
    assert (s.rest + more)[..k] == s.rest[..k] && (s.rest + more)[k + 1..] == s.rest[k + 1..] + more;
  }

  lemma HeaderExtended(s: Stream, more: string)
    requires ReadHeader(s).0.Good()
    ensures s.Good()
    ensures ReadHeader(Extend(s, more)) == (Extend(ReadHeader(s).0, more), ReadHeader(s).1)
  {
    hide HeaderOf, Stream.GetLine, Find;
    CompleteLine(s);
    LineExtended(s, more);
  }

  lemma {:induction false} HeadersExtended(s: Stream, headers: Headers, more: string)
    requires ReadHeaders(s, headers).0.Good()
    ensures s.Good() && ReadHeader(s).0.Good()
    ensures ReadHeaders(Extend(s, more), headers)
         == (Extend(ReadHeaders(s, headers).0, more), ReadHeaders(s, headers).1)
    decreases |s.rest|
  {
    hide ReadHeader;
    var (s', line) := ReadHeader(s);
    if line.Header? {
      HeadersExtended(s', headers[line.key := line.value], more);
    }
    HeaderExtended(s, more);
  }

  /** A message that can be read is read the same way whatever follows it. */
  lemma MessageExtended(s: Stream, more: string)
    requires ReadMessage(s).1.Parsed?
    ensures ReadMessage(Extend(s, more)) == (Extend(ReadMessage(s).0, more), ReadMessage(s).1)
  {
    hide ReadHeaders;
    var (s', headers) := ReadHeaders(s, map[]);
    ContentExtended(s', headers.value, more);
    HeadersExtended(s, map[], more);
  }

  lemma ContentExtended(s: Stream, headers: Headers, more: string)
    requires ReadContent(s, headers).1.Parsed?
    ensures s.Good()
    ensures ReadContent(Extend(s, more), headers)
         == (Extend(ReadContent(s, headers).0, more), ReadContent(s, headers).1)
  {
    var n := FromChars(headers[CONTENT_LENGTH]).value;
    assert (s.rest + more)[..n] == s.rest[..n] && (s.rest + more)[n..] == s.rest[n..] + more;
  }

  /** A frame that is cut short is never taken for a message. */
  lemma TornFrame(body: string, k: nat)
    requires |body| <= MAX_STREAMSIZE && k < |Frame(body)|
    ensures !ReadMessage(Stream(Frame(body)[..k], false, false)).1.Parsed?
  {
    hide Frame, ReadMessage;
    var torn, lost := Frame(body)[..k], Frame(body)[k..];
    var s := Stream(torn, false, false);
    FrameRoundTrip(body, "");
    assert torn + lost == Frame(body) + "";
    if ReadMessage(s).1.Parsed? {
      MessageExtended(s, lost);
      assert false;
    }
  }
}
