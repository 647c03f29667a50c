/** Version numbers, and the strings they are printed as and read from. */
module SemanticVersion {
  import opened Wrappers
  import opened Numerals
  import Framing

  type U32 = n: nat | n < TWO_TO_THE_32

  datatype Version = Version(major: U32, minor: U32, patch: U32)

  /** Two or three decimal numbers with dots between them. */
  predicate IsSemVersion(s: string) {
    var dot := Framing.Find(s, '.');
    && AllDigits(s[..dot])
    && dot < |s|
    && var rest := s[dot + 1..];
       var dot' := Framing.Find(rest, '.');
       AllDigits(rest[..dot']) && (dot' < |rest| ==> AllDigits(rest[dot' + 1..]))
  }

  function EncodeSemanticVersion(v: Version): string {
    Framing.Decimal(v.major) + "." + Framing.Decimal(v.minor)
    + if v.patch != 0 then "." + Framing.Decimal(v.patch) else ""
  }

  /** The number that a string of digits stands for, narrowed to 32 bits; None if it exceeds 64 bits, which throws. */
  function Component(digits: string): Option<U32> {
    var n := Framing.DigitsValue(digits, 0);
    if n < TWO_TO_THE_64 then Some(n % TWO_TO_THE_32) else None
  }

  function ConvertSemanticVersion(s: string): Option<Version>
    requires IsSemVersion(s)
  {
    var dot := Framing.Find(s, '.');
    var rest := s[dot + 1..];
    var dot' := Framing.Find(rest, '.');
    var major, minor := Component(s[..dot]), Component(rest[..dot']);
    var patch := if dot' < |rest| then Component(rest[dot' + 1..]) else Some(0);
    if major.None? || minor.None? || patch.None? then None else Some(Version(major.value, minor.value, patch.value))
  }

  lemma ComponentOfDecimal(n: U32)
    ensures AllDigits(Framing.Decimal(n)) && '.' !in Framing.Decimal(n)
    ensures Component(Framing.Decimal(n)) == Some(n)
  {
    Framing.DecimalValue(n);
  }

  /** A version that is printed reads back as it was; a patch of zero, which is not printed, too. */
  lemma VersionRoundTrip(v: Version)
    ensures IsSemVersion(EncodeSemanticVersion(v))
    ensures ConvertSemanticVersion(EncodeSemanticVersion(v)) == Some(v)
  {
    hide Framing.Decimal;
    var s := EncodeSemanticVersion(v);
    var major, minor, patch := Framing.Decimal(v.major), Framing.Decimal(v.minor), Framing.Decimal(v.patch);
    var rest := minor + if v.patch != 0 then "." + patch else "";
    ComponentOfDecimal(v.major);
    ComponentOfDecimal(v.minor);
    ComponentOfDecimal(v.patch);
    assert s == major + ['.'] + rest;
    Framing.FindConcat(major, '.', rest);
    assert s[..|major|] == major && s[|major| + 1..] == rest;
    if v.patch != 0 {
      assert rest == minor + ['.'] + patch;
      Framing.FindConcat(minor, '.', patch);
      assert rest[..|minor|] == minor && rest[|minor| + 1..] == patch;
    } else {
      assert rest == minor;
      Framing.FindNothing(minor, '.');
      assert minor[..|minor|] == minor;
    }
  }

  // ---- Versions that were not printed ----

  /** What is read from numerals: their numbers narrowed to 32 bits, with a patch of zero if there is none; nothing if
      one of them exceeds 64 bits. */
  function Narrowed(major: nat, minor: nat, patch: nat): Option<Version> {
    if major < TWO_TO_THE_64 && minor < TWO_TO_THE_64 && patch < TWO_TO_THE_64 then
      Some(Version(major % TWO_TO_THE_32, minor % TWO_TO_THE_32, patch % TWO_TO_THE_32))
    else None
  }

  lemma NumeralComponent(s: string, n: nat)
    requires Numeral(s, n)
    ensures AllDigits(s) && '.' !in s
    ensures Component(s) == if n < TWO_TO_THE_64 then Some(n % TWO_TO_THE_32) else None
  {
    NumeralValue(s, n);
  }

  lemma DotSplits(before: string, after: string)
    requires '.' !in before
    ensures var s := before + "." + after;
            Framing.Find(s, '.') == |before| && s[..|before|] == before && s[|before| + 1..] == after
  {
    Framing.FindConcat(before, '.', after);
  }

  /** Every two or three numerals with dots between them are a version: "1.2.0", "01.2" and "1.2" are read alike. */
  lemma NumeralsRead(major: string, minor: string, patch: string, x: nat, y: nat, z: nat)
    requires Numeral(major, x) && Numeral(minor, y) && Numeral(patch, z)
    ensures var short, long := major + "." + minor, major + "." + (minor + "." + patch);
            && IsSemVersion(short) && ConvertSemanticVersion(short) == Narrowed(x, y, 0)
            && IsSemVersion(long) && ConvertSemanticVersion(long) == Narrowed(x, y, z)
  {
    hide Component, Numeral, AllDigits, Framing.Find;
    NumeralComponent(major, x);
    NumeralComponent(minor, y);
    NumeralComponent(patch, z);
    DotSplits(major, minor);
    DotSplits(major, minor + "." + patch);
    DotSplits(minor, patch);
    Framing.FindNothing(minor, '.');
    assert minor[..|minor|] == minor;
  }

  /** Nothing else is a version. */
  lemma VersionIsNumerals(s: string)
    returns (major: string, minor: string, patch: Option<string>, x: nat, y: nat, z: nat)
    requires IsSemVersion(s)
    ensures Numeral(major, x) && Numeral(minor, y) && (patch.Some? ==> Numeral(patch.value, z))
    ensures s == major + "." + if patch.None? then minor else minor + "." + patch.value
  {
    var dot := Framing.Find(s, '.');
    var rest := s[dot + 1..];
    var dot' := Framing.Find(rest, '.');
    major, minor := s[..dot], rest[..dot'];
    patch := if dot' < |rest| then Some(rest[dot' + 1..]) else None;
    hide *;
    Framing.FindFinds(s, '.');
    Framing.FindFinds(rest, '.');
    DigitsAreNumeral(major);
    DigitsAreNumeral(minor);
    x, y, z := Framing.DigitsValue(major, 0), Framing.DigitsValue(minor, 0), 0;
    if patch.Some? {
      DigitsAreNumeral(patch.value);
      z := Framing.DigitsValue(patch.value, 0);
      Rejoin(rest, dot');
    } else {
      assert rest == minor;
    }
    Rejoin(s, dot);
  }

  lemma Rejoin(s: string, dot: nat)
    requires dot < |s| && s[dot] == '.'
    ensures s == s[..dot] + "." + s[dot + 1..]
  {
  }

  /** A version that starts with "1." has a major number of one. */
  lemma MajorIsOne(s: string)
    requires IsSemVersion(s) && "1." <= s && ConvertSemanticVersion(s).Some?
    ensures ConvertSemanticVersion(s).value.major == 1
  {
    assert s == "1" + "." + s[2..];
    DotSplits("1", s[2..]);
    assert Framing.DigitsValue("1", 0) == 1;
  }

  lemma VersionInjective(v: Version, w: Version)
    requires EncodeSemanticVersion(v) == EncodeSemanticVersion(w)
    ensures v == w
  {
    VersionRoundTrip(v);
    VersionRoundTrip(w);
  }
}
