/**
 Unicode text as the document store sees it: scalar values, their UTF-8 bytes (RFC 3629, section 3)
 and their width in UTF-16 code units (RFC 2781, section 2.1).
 */
module Unicode {
  import opened Wrappers

  type Byte = bv8

  /** A code point that is not a surrogate. */
  type Scalar = c: bv32 | c < 0xD800 || 0xE000 <= c < 0x11_0000 witness 0

  type Text = seq<Scalar>

  const CR: Scalar := 13
  const LF: Scalar := 10

  /** How many UTF-16 code units a scalar value takes. */
  function Units(c: Scalar): (u: nat)
    ensures 1 <= u <= 2
  {
    if c < 0x1_0000 then 1 else 2
  }

  /** The UTF-8 bytes of one scalar value. */
  function EncodeScalar(c: Scalar): (bytes: seq<Byte>)
    ensures 1 <= |bytes| <= 4
  {
    if c < 0x80 then
      [c as Byte]
    else if c < 0x800 then
      [0xC0 | (c >> 6) as Byte, 0x80 | (c & 0x3F) as Byte]
    else if c < 0x1_0000 then
      [0xE0 | (c >> 12) as Byte, 0x80 | ((c >> 6) & 0x3F) as Byte, 0x80 | (c & 0x3F) as Byte]
    else
      [0xF0 | (c >> 18) as Byte, 0x80 | ((c >> 12) & 0x3F) as Byte,
       0x80 | ((c >> 6) & 0x3F) as Byte, 0x80 | (c & 0x3F) as Byte]
  }

  /** The UTF-8 bytes of a text. */
  function Encode(text: Text): (bytes: seq<Byte>) {
    if text == [] then [] else EncodeScalar(text[0]) + Encode(text[1..])
  }

  ghost predicate ValidUtf8(bytes: seq<Byte>) {
    exists text: Text :: Encode(text) == bytes
  }

  datatype UnicodeResult = UnicodeResult(count: nat, size: nat)

  /** The byte at an index of the zero-filled four-byte buffer the decoder copies its input into. */
  function Buffered(bytes: seq<Byte>, k: nat): Byte {
    if k < |bytes| then bytes[k] else 0
  }

  /** Decodes the first UTF-8 sequence: its width in UTF-16 code units and in bytes. */
  function UTF8ToUTF16CharacterCount(bytes: seq<Byte>): Option<UnicodeResult> {
    var b0, b1, b2, b3 := Buffered(bytes, 0), Buffered(bytes, 1), Buffered(bytes, 2), Buffered(bytes, 3);
    if b0 & 0x80 == 0 then
      Classify(b0 as bv32, 1)
    else if b0 & 0xE0 == 0xC0 then
      Classify(((b0 & 0x1F) as bv32 << 6) | (b1 & 0x3F) as bv32, 2)
    else if b0 & 0xF0 == 0xE0 then
      Classify(((b0 & 0x0F) as bv32 << 12) | ((b1 & 0x3F) as bv32 << 6) | (b2 & 0x3F) as bv32, 3)
    else if b0 & 0xF8 == 0xF0 then
      Classify(((b0 & 0x07) as bv32 << 18) | ((b1 & 0x3F) as bv32 << 12) |
               ((b2 & 0x3F) as bv32 << 6) | (b3 & 0x3F) as bv32, 4)
    else
      None
  }

  function Classify(codepoint: bv32, size: nat): Option<UnicodeResult> {
    if codepoint < 0xD800 || 0xDFFF < codepoint < 0x1_0000 then
      Some(UnicodeResult(1, size))
    else if 0x1_0000 <= codepoint <= 0x10_FFFF then
      Some(UnicodeResult(2, size))
    else
      None
  }

  // The four widths, one at a time: what the masks and shifts of the decoder recover.

  lemma DecodesOneByte(c: Scalar, bytes: seq<Byte>)
    requires c < 0x80 && Buffered(bytes, 0) == c as Byte
    ensures UTF8ToUTF16CharacterCount(bytes) == Classify(c, 1)
  {
  }

  lemma DecodesTwoBytes(c: Scalar, bytes: seq<Byte>)
    requires 0x80 <= c < 0x800
    requires Buffered(bytes, 0) == 0xC0 | (c >> 6) as Byte && Buffered(bytes, 1) == 0x80 | (c & 0x3F) as Byte
    ensures UTF8ToUTF16CharacterCount(bytes) == Classify(c, 2)
  {
  }

  lemma DecodesThreeBytes(c: Scalar, bytes: seq<Byte>)
    requires 0x800 <= c < 0x1_0000
    requires Buffered(bytes, 0) == 0xE0 | (c >> 12) as Byte
    requires Buffered(bytes, 1) == 0x80 | ((c >> 6) & 0x3F) as Byte
    requires Buffered(bytes, 2) == 0x80 | (c & 0x3F) as Byte
    ensures UTF8ToUTF16CharacterCount(bytes) == Classify(c, 3)
  {
  }

  lemma DecodesFourBytes(c: Scalar, bytes: seq<Byte>)
    requires 0x1_0000 <= c
    requires Buffered(bytes, 0) == 0xF0 | (c >> 18) as Byte
    requires Buffered(bytes, 1) == 0x80 | ((c >> 12) & 0x3F) as Byte
    requires Buffered(bytes, 2) == 0x80 | ((c >> 6) & 0x3F) as Byte
    requires Buffered(bytes, 3) == 0x80 | (c & 0x3F) as Byte
    ensures UTF8ToUTF16CharacterCount(bytes) == Classify(c, 4)
  {
  }

  lemma ClassifyScalar(c: Scalar, size: nat)
    ensures Classify(c, size) == Some(UnicodeResult(Units(c), size))
  {
  }

  /** The decoder inverts the encoder, whatever follows. */
  lemma DecodesEncoded(c: Scalar, rest: seq<Byte>)
    ensures UTF8ToUTF16CharacterCount(EncodeScalar(c) + rest) == Some(UnicodeResult(Units(c), |EncodeScalar(c)|))
  {
    var bytes := EncodeScalar(c) + rest;
    ClassifyScalar(c, |EncodeScalar(c)|);
    if c < 0x80 {
      DecodesOneByte(c, bytes);
    } else if c < 0x800 {
      DecodesTwoBytes(c, bytes);
    } else if c < 0x1_0000 {
      DecodesThreeBytes(c, bytes);
    } else {
      DecodesFourBytes(c, bytes);
    }
  }

  /** Only a line terminator's own byte looks like one: every byte of a longer sequence has its top bit set. */
  lemma EncodedBytes(c: Scalar)
    ensures c < 0x80 ==> EncodeScalar(c) == [c as Byte]
    ensures c >= 0x80 ==> forall k :: 0 <= k < |EncodeScalar(c)| ==> EncodeScalar(c)[k] >= 0x80
  {
  }
}
