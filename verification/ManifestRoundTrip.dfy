/**
 What a printed manifest is worth: the exact conditions under which it has a correct schema, and under which it reads
 back as the manifest that was printed.
 */
module ManifestRoundTrip {
  import opened Wrappers
  import opened JsonValues
  import opened Manifest
  import opened SemanticVersion
  import Framing
  import OrderedStrings
  import SPDX

  // ---- What is printed with a correct schema ----

  lemma RoleListed(roles: set<Role>, role: Role)
    ensures role in RoleList(roles) <==> role in roles
  {
    match role
    case Owner =>
    case Contributor =>
    case Maintainer =>
    case Support =>
  }

  lemma RoleNamed(role: Role)
    ensures RoleName(role) in {"owner", "contributor", "maintainer", "support"} && RoleOf(RoleName(role)) == role
  {
  }

  lemma RolesRoundTrip(roles: set<Role>)
    ensures ValidateRoles(RolesJson(RoleList(roles)))
    ensures RolesOf(RolesJson(RoleList(roles))) == roles
  {
    hide RoleList, RoleName, RoleOf;
    var list := RoleList(roles);
    var items := RolesJson(list);
    forall k | 0 <= k < |list| ensures items[k].s in {"owner", "contributor", "maintainer", "support"} {
      RoleNamed(list[k]);
    }
    forall role ensures role in RolesOf(items) <==> role in roles {
      RoleListed(roles, role);
      RoleNamed(role);
      if role in roles {
        var k :| 0 <= k < |list| && list[k] == role;
        assert RoleOf(items[k].s) == role;
      }
      if role in RolesOf(items) {
        var k :| 0 <= k < |items| && RoleOf(items[k].s) == role;
        RoleNamed(list[k]);
      }
    }
  }

  lemma ContactRoundTrip(c: Contact)
    ensures ValidateContact(ContactJson(c)) && ContactOf(ContactJson(c)) == c
  {
    hide RolesOf, ValidateRoles, RoleList, RolesJson;
    RolesRoundTrip(c.roles);
  }

  lemma DependencyRoundTrip(d: Dependency)
    ensures ValidateDependency(DependencyJson(d)) <==> ValidateUUID(d.uuid)
    ensures ValidateUUID(d.uuid) ==> DependencyOf(DependencyJson(d)) == Some(d)
  {
    hide IsSemVersion, ConvertSemanticVersion, EncodeSemanticVersion, ValidateUUID;
    VersionRoundTrip(d.version);
  }

  lemma SwitchRoundTrip(s: Switch)
    ensures ValidateSwitch(SwitchJson(s)) && SwitchOf(SwitchJson(s)) == s
  {
    hide Collected, OrderedStrings.Sorted;
    FlagsRoundTrip(s.alpha);
    FlagsRoundTrip(s.beta);
    FlagsRoundTrip(s.gamma);
    FlagsRoundTrip(s.llvm);
    FlagsRoundTrip(s.lto);
    FlagsRoundTrip(s.runtime);
  }

  /** What is left of the build profiles when they have been printed and read. */
  function Trimmed(o: Optimization): Optimization
    requires HasRequired(o.profiles)
  {
    Optimization(map["rapid" := o.profiles["rapid"], "debug" := o.profiles["debug"],
                     "release" := o.profiles["release"]],
                 Requirements(o.requirements.minCores % TWO_TO_THE_32, o.requirements.minMemory % TWO_TO_THE_32,
                              o.requirements.minStorage % TWO_TO_THE_32))
  }

  lemma OptimizationRoundTrip(o: Optimization)
    requires HasRequired(o.profiles)
    ensures ValidateOptimization(OptimizationJson(o)) && ProfilesReadable(OptimizationJson(o))
    ensures OptimizationOf(OptimizationJson(o)) == Trimmed(o)
  {
    hide SwitchOf, SwitchJson, ValidateSwitch;
    SwitchRoundTrip(o.profiles["rapid"]);
    SwitchRoundTrip(o.profiles["debug"]);
    SwitchRoundTrip(o.profiles["release"]);
    assert OptimizationOf(OptimizationJson(o)).profiles == Trimmed(o).profiles;
  }

  lemma FormatIsVersion()
    ensures IsSemVersion("1.0") && "1." <= "1.0"
  {
    var s := EncodeSemanticVersion(Version(1, 0, 0));
    VersionRoundTrip(Version(1, 0, 0));
    assert Framing.Decimal(1) == "1" && Framing.Decimal(0) == "0";
    assert s == "1.0";
  }

  /** A manifest prints with a correct schema exactly when its name, its licence and the identifiers of its dependencies
      are acceptable: everything else the schema asks for is true of whatever is printed. */
  lemma CorrectSchemaIff(rules: Rules, m: Manifest)
    requires HasRequired(m.optimization.profiles)
    ensures VerifyUntrustedJSON(rules, ManifestJson(m)) <==>
            && rules.validName(m.name)
            && SPDX.IsExactSPDXLicenseMatch(rules.licenses, m.license)
            && forall k :: 0 <= k < |m.dependencies| ==> ValidateUUID(m.dependencies[k].uuid)
  {
    HeaderIff(rules, m);
    ContentsIff(m);
  }

  lemma HeaderIff(rules: Rules, m: Manifest)
    requires HasRequired(m.optimization.profiles)
    ensures VerifyHeader(rules, ManifestJson(m)) <==>
            rules.validName(m.name) && SPDX.IsExactSPDXLicenseMatch(rules.licenses, m.license)
  {
    hide IsSemVersion, EncodeSemanticVersion, OptimizationJson, SPDX.IsExactSPDXLicenseMatch;
    FormatIsVersion();
    VersionRoundTrip(m.version);
  }

  lemma PrintedMembers(m: Manifest)
    requires HasRequired(m.optimization.profiles)
    ensures var j := ManifestJson(m);
            && HasArr(j, "contacts") && j.fields["contacts"].items == ContactsJson(m.contacts)
            && HasObj(j, "platforms") && ValidatePlatforms(j.fields["platforms"])
            && Has(j, "optimization") && j.fields["optimization"] == OptimizationJson(m.optimization)
            && HasArr(j, "dependencies") && j.fields["dependencies"].items == DependenciesJson(m.dependencies)
            && HasArr(j, "blockchain") && j.fields["blockchain"].items == []
  {
    hide OptimizationJson, ContactJson, DependencyJson, EncodeSemanticVersion;
  }

  lemma ContentsIff(m: Manifest)
    requires HasRequired(m.optimization.profiles)
    ensures VerifyContents(ManifestJson(m)) <==>
            forall k :: 0 <= k < |m.dependencies| ==> ValidateUUID(m.dependencies[k].uuid)
  {
    PrintedMembers(m);
    hide ManifestJson, ValidateOptimization, OptimizationJson, ValidateContact, ContactJson, ValidateDependency,
      DependencyJson, ValidateUUID, ValidatePlatforms;
    OptimizationRoundTrip(m.optimization);
    forall k | 0 <= k < |m.contacts| ensures ValidateContact(ContactsJson(m.contacts)[k]) {
      ContactRoundTrip(m.contacts[k]);
    }
    forall k | 0 <= k < |m.dependencies|
      ensures ValidateDependency(DependenciesJson(m.dependencies)[k]) <==> ValidateUUID(m.dependencies[k].uuid)
    {
      DependencyRoundTrip(m.dependencies[k]);
    }
  }

  // ---- What else has a correct schema ----

  predicate IsDash(uuid: string, k: nat) {
    k < |uuid| && uuid[k] == '-'
  }

  /** The usual form of an identifier: groups of 8, 4, 4, 4 and 12 hexadecimal digits with dashes between them. */
  ghost predicate Canonical(uuid: string) {
    exists a, b, c, d, e :: AreGroups(uuid, a, b, c, d, e)
  }

  predicate AreGroups(uuid: string, a: string, b: string, c: string, d: string, e: string) {
    && Hex(a, 8) && Hex(b, 4) && Hex(c, 4) && Hex(d, 4) && Hex(e, 12)
    && uuid == a + "-" + b + "-" + c + "-" + d + "-" + e
  }

  predicate Hex(s: string, length: nat) {
    |s| == length && forall k :: 0 <= k < |s| ==> s[k] in "0123456789abcdefABCDEF"
  }

  lemma HexDigitIff(c: char)
    ensures IsHexDigit(c) <==> c in "0123456789abcdefABCDEF"
  {
    var digits := "0123456789abcdefABCDEF";
    if IsHexDigit(c) {
      var k := if c <= '9' then c as int - '0' as int
               else if c <= 'F' then 16 + c as int - 'A' as int
               else 10 + c as int - 'a' as int;
      assert digits[k] == c;
    }
  }

  /** An identifier in the usual form is accepted, and whatever else is accepted has a dash among its digits. */
  lemma CanonicalIff(uuid: string)
    ensures Canonical(uuid) <==>
            ValidateUUID(uuid) && forall k: nat :: IsDash(uuid, k) ==> k in {8, 13, 18, 23}
  {
    forall c: char ensures IsHexDigit(c) <==> c in "0123456789abcdefABCDEF" {
      HexDigitIff(c);
    }
    hide IsHexDigit;
    if ValidateUUID(uuid) && forall k: nat :: IsDash(uuid, k) ==> k in {8, 13, 18, 23} {
      Grouped(uuid);
    }
    if Canonical(uuid) {
      Ungrouped(uuid);
    }
  }

  lemma Grouped(uuid: string)
    requires forall c: char :: IsHexDigit(c) <==> c in "0123456789abcdefABCDEF"
    requires ValidateUUID(uuid) && forall k: nat :: IsDash(uuid, k) ==> k in {8, 13, 18, 23}
    ensures Canonical(uuid)
  {
    DigitsBetween(uuid);
    Glued(uuid);
    hide *;
    HexSlice(uuid, 0, 8);
    HexSlice(uuid, 9, 13);
    HexSlice(uuid, 14, 18);
    HexSlice(uuid, 19, 23);
    HexSlice(uuid, 24, 36);
    IsCanonical(uuid, uuid[0..8], uuid[9..13], uuid[14..18], uuid[19..23], uuid[24..36]);
  }

  lemma IsCanonical(uuid: string, a: string, b: string, c: string, d: string, e: string)
    requires Hex(a, 8) && Hex(b, 4) && Hex(c, 4) && Hex(d, 4) && Hex(e, 12)
    requires uuid == a + "-" + b + "-" + c + "-" + d + "-" + e
    ensures Canonical(uuid)
  {
    assert AreGroups(uuid, a, b, c, d, e);
  }

  lemma DigitsBetween(uuid: string)
    requires forall c: char :: IsHexDigit(c) <==> c in "0123456789abcdefABCDEF"
    requires ValidateUUID(uuid) && forall k: nat :: IsDash(uuid, k) ==> k in {8, 13, 18, 23}
    ensures |uuid| == 36 && uuid[8] == '-' && uuid[13] == '-' && uuid[18] == '-' && uuid[23] == '-'
    ensures forall k :: 0 <= k < 36 && k !in {8, 13, 18, 23} ==> uuid[k] in "0123456789abcdefABCDEF"
  {
    hide IsHexDigit;
    forall k | 0 <= k < 36 && k !in {8, 13, 18, 23} ensures uuid[k] in "0123456789abcdefABCDEF" {
      assert !IsDash(uuid, k);
    }
  }

  lemma HexSlice(uuid: string, i: nat, j: nat)
    requires i <= j <= |uuid| && forall k :: i <= k < j ==> uuid[k] in "0123456789abcdefABCDEF"
    ensures Hex(uuid[i..j], j - i)
  {
  }

  lemma Glued(uuid: string)
    requires |uuid| == 36 && uuid[8] == '-' && uuid[13] == '-' && uuid[18] == '-' && uuid[23] == '-'
    ensures uuid == uuid[0..8] + "-" + uuid[9..13] + "-" + uuid[14..18] + "-" + uuid[19..23] + "-" + uuid[24..36]
  {
  }

  lemma Ungrouped(uuid: string)
    requires forall c: char :: IsHexDigit(c) <==> c in "0123456789abcdefABCDEF"
    requires Canonical(uuid)
    ensures ValidateUUID(uuid) && forall k: nat :: IsDash(uuid, k) ==> k in {8, 13, 18, 23}
  {
    hide IsHexDigit;
    var a, b, c, d, e :| AreGroups(uuid, a, b, c, d, e);
    forall k | 0 <= k < 36 && k !in {8, 13, 18, 23} ensures uuid[k] in "0123456789abcdefABCDEF" {
      assert uuid[k] == if k < 8 then a[k] else if k < 13 then b[k - 9] else if k < 18 then c[k - 14]
                        else if k < 23 then d[k - 19] else e[k - 24];
    }
  }

  /** Dashes alone are accepted for an identifier. */
  lemma DashesAccepted()
    ensures ValidateUUID("------------------------------------")
    ensures !Canonical("------------------------------------")
  {
    var dashes := "------------------------------------";
    CanonicalIff(dashes);
    assert IsDash(dashes, 0);
  }

  const MEMBERS := {"format", "name", "description", "license", "category", "version", "contacts", "platforms",
                    "optimization", "dependencies", "blockchain"}

  function Without(j: Json, key: string): Json {
    if j.Obj? then Obj(map k | k in j.fields && k != key :: j.fields[k]) else j
  }

  /** Every member of a manifest is required, and its format is version one. */
  lemma MembersRequired(rules: Rules, j: Json, key: string)
    requires VerifyUntrustedJSON(rules, j) && key in MEMBERS
    ensures Has(j, key) && !VerifyUntrustedJSON(rules, Without(j, key))
    ensures IsSemVersion(j.fields["format"].s)
    ensures ConvertSemanticVersion(j.fields["format"].s).Some? ==>
              ConvertSemanticVersion(j.fields["format"].s).value.major == 1
  {
    hide IsSemVersion, ConvertSemanticVersion, ValidateOptimization, ValidateContact, ValidateBlock, ValidateDependency,
      ValidatePlatforms, SPDX.IsExactSPDXLicenseMatch;
    if ConvertSemanticVersion(j.fields["format"].s).Some? {
      MajorIsOne(j.fields["format"].s);
    }
  }

  /** The members with these keys are there, and without one of them the value is refused. */
  ghost predicate AllRequired(check: Json -> bool, j: Json, keys: set<string>) {
    check(j) ==> forall key :: key in keys ==> Has(j, key) && !check(Without(j, key))
  }

  /** Every member of the parts of a manifest is required too, but for the phone number of a contact. */
  lemma PartsRequired(j: Json)
    ensures AllRequired(ValidateContact, j, {"name", "email", "roles"})
    ensures AllRequired(ValidateDependency, j, {"uuid", "version"})
    ensures AllRequired(ValidatePlatforms, j, {"allow", "deny"})
    ensures AllRequired(ValidateOptimization, j, REQUIRED + {"requirements"})
    ensures AllRequired(ValidateRequirements, j, {"min-cores", "min-memory", "min-storage"})
    ensures AllRequired(ValidateSwitch, j, {"alpha", "beta", "gamma", "llvm", "lto", "runtime"})
  {
    hide ValidateUUID, IsSemVersion, AllStrings, ValidateRoles;
  }

  /** So is every member of a block of the ownership chain; and a public key has no other members. */
  lemma BlockPartsRequired(j: Json)
    ensures AllRequired(ValidateBlock, j, {"uuid", "category", "pubkey", "signature"})
    ensures AllRequired(ValidateKeyPair, j, {"type", "value"}) && AllRequired(ValidateSignature, j, {"type", "value"})
    ensures ValidateKeyPair(j) ==> j.fields.Keys == {"type", "value"}
  {
    hide ValidateUUID, IsHex;
    if ValidateKeyPair(j) {
      var rest := j.fields.Keys - {"type", "value"};
      assert j.fields.Keys == rest + {"type", "value"} && |j.fields.Keys| == |j.fields|;
      assert |{"type", "value"}| == 2;
      assert |rest + {"type", "value"}| == |rest| + 2;
    }
  }

  // ---- The round trip ----

  lemma {:induction false} DependenciesRoundTrip(dependencies: seq<Dependency>)
    requires forall k :: 0 <= k < |dependencies| ==> ValidateUUID(dependencies[k].uuid)
    ensures var items := DependenciesJson(dependencies);
            && (forall k :: 0 <= k < |items| ==> ValidateDependency(items[k]))
            && DependenciesOf(items) == Some(dependencies)
  {
    hide ValidateDependency, DependencyOf, DependencyJson, ValidateUUID;
    forall k | 0 <= k < |dependencies| ensures ValidateDependency(DependenciesJson(dependencies)[k]) {
      DependencyRoundTrip(dependencies[k]);
    }
    if dependencies != [] {
      var n := |dependencies| - 1;
      DependenciesRoundTrip(dependencies[..n]);
      DependencyRoundTrip(dependencies[n]);
      assert DependenciesJson(dependencies)[..n] == DependenciesJson(dependencies[..n]);
      assert dependencies[..n] + [dependencies[n]] == dependencies;
    }
  }

  lemma ContactsRoundTrip(contacts: seq<Contact>)
    ensures forall k :: 0 <= k < |contacts| ==> ValidateContact(ContactsJson(contacts)[k])
    ensures ContactsOf(ContactsJson(contacts)) == contacts
  {
    hide ValidateContact, ContactOf, ContactJson;
    forall k | 0 <= k < |contacts|
      ensures ValidateContact(ContactJson(contacts[k])) && ContactOf(ContactJson(contacts[k])) == contacts[k]
    {
      ContactRoundTrip(contacts[k]);
    }
    assert |ContactsOf(ContactsJson(contacts))| == |contacts|;
  }

  /** A manifest that prints with a correct schema always reads back, without the profiles that are not required and
      with its requirements narrowed to 32 bits, and otherwise unchanged. */
  lemma ManifestRoundTrip(rules: Rules, m: Manifest)
    requires HasRequired(m.optimization.profiles) && VerifyUntrustedJSON(rules, ManifestJson(m))
    ensures InstanceOf(rules, ManifestJson(m)) == Read(m.(optimization := Trimmed(m.optimization)))
  {
    hide IsSemVersion, EncodeSemanticVersion, ConvertSemanticVersion, ValidateOptimization, OptimizationJson,
      OptimizationOf, ProfilesReadable, ValidateContact, ContactsJson, ContactsOf, ValidateDependency, DependenciesJson,
      DependenciesOf, Trimmed, ValidateUUID, SPDX.IsExactSPDXLicenseMatch;
    CorrectSchemaIff(rules, m);
    VersionRoundTrip(m.version);
    OptimizationRoundTrip(m.optimization);
    ContactsRoundTrip(m.contacts);
    DependenciesRoundTrip(m.dependencies);
    assert Unwrapped(Strings(m.allow)) == m.allow && Unwrapped(Strings(m.deny)) == m.deny;
    assert CategoryOf(CategoryName(m.category)) == m.category;
  }

  /** A manifest that prints with a correct schema reads back as itself exactly when it has only the required profiles
      and its requirements are 32-bit numbers. */
  lemma ManifestRoundTripIff(rules: Rules, m: Manifest)
    requires HasRequired(m.optimization.profiles) && VerifyUntrustedJSON(rules, ManifestJson(m))
    ensures InstanceOf(rules, ManifestJson(m)) == Read(m) <==>
            && m.optimization.profiles.Keys == REQUIRED
            && var r := m.optimization.requirements;
               r.minCores < TWO_TO_THE_32 && r.minMemory < TWO_TO_THE_32 && r.minStorage < TWO_TO_THE_32
  {
    hide VerifyUntrustedJSON, ManifestJson, InstanceOf, ProfilesReadable;
    ManifestRoundTrip(rules, m);
    TrimmedIff(m.optimization);
  }

  lemma TrimmedIff(o: Optimization)
    requires HasRequired(o.profiles)
    ensures Trimmed(o) == o <==>
            && o.profiles.Keys == REQUIRED
            && var r := o.requirements;
               r.minCores < TWO_TO_THE_32 && r.minMemory < TWO_TO_THE_32 && r.minStorage < TWO_TO_THE_32
  {
    assert Trimmed(o).profiles.Keys == REQUIRED;
    if o.profiles.Keys == REQUIRED {
      assert o.profiles == Trimmed(o).profiles;
    }
  }
}
