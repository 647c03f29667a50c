/**
 Package manifests: how they are printed as JSON, checked, and read back. A manifest that prints with a correct schema
 reads back as itself up to what the printer leaves out and the reader narrows, and the exact conditions for both the
 schema and the round trip are given.
 */
module Manifest {
  import opened Wrappers
  import opened JsonValues
  import opened OrderedStrings
  import opened SemanticVersion
  import SPDX

  // ---- The manifest ----

  type U64 = n: nat | n < TWO_TO_THE_64

  datatype Category = StandardLibrary | Library | Executable
  datatype Role = Owner | Contributor | Maintainer | Support
  datatype Contact = Contact(name: string, email: string, roles: set<Role>, phone: Option<string>)
  datatype Requirements = Requirements(minCores: U64, minMemory: U64, minStorage: U64)
  datatype Dependency = Dependency(uuid: string, version: Version)

  datatype Switch = Switch(alpha: Flags, beta: Flags, gamma: Flags, llvm: Flags, lto: Flags, runtime: Flags)

  type Profiles = map<string, Switch>

  const REQUIRED := {"rapid", "debug", "release"}
  const NO_FLAGS := Switch([], [], [], [], [], [])
  const NO_PROFILES: Profiles := map["rapid" := NO_FLAGS, "debug" := NO_FLAGS, "release" := NO_FLAGS]

  /** The build profiles; the printer relies on the required ones being there. */
  datatype Optimization = Optimization(profiles: Profiles, requirements: Requirements)

  predicate HasRequired(profiles: Profiles) {
    REQUIRED <= profiles.Keys
  }

  datatype Manifest = Manifest(
    name: string,
    description: string,
    license: string,
    category: Category,
    version: Version,
    contacts: seq<Contact>,
    allow: seq<string>,
    deny: seq<string>,
    optimization: Optimization,
    dependencies: seq<Dependency>)

  /** The profiles as they are built up: whatever is set and cleared, the required ones stay. */
  class OptimizationBuilder {
    var profiles: Profiles
    var requirements: Requirements

    ghost predicate Valid()
      reads this
    {
      HasRequired(profiles)
    }

    constructor ()
      ensures Valid() && profiles == NO_PROFILES && profiles.Keys == REQUIRED
      ensures requirements == Requirements(1, 2 * 1024 * 1024, 0)
    {
      profiles := NO_PROFILES;
      requirements := Requirements(1, 2 * 1024 * 1024, 0);
    }

    method SetProfile(name: string, profile: Switch)
      requires Valid()
      modifies this`profiles
      ensures Valid() && profiles == old(profiles)[name := profile]
    {
      profiles := profiles[name := profile];
    }

    method ClearProfile(name: string)
      requires Valid()
      modifies this`profiles
      ensures Valid() && profiles == if name in REQUIRED then old(profiles) else old(profiles) - {name}
    {
      if name !in REQUIRED {
        profiles := profiles - {name};
      }
    }

    method ClearAllProfiles()
      modifies this`profiles
      ensures Valid() && profiles == NO_PROFILES
    {
      profiles := map[];
      profiles := profiles["rapid" := NO_FLAGS];
      profiles := profiles["debug" := NO_FLAGS];
      profiles := profiles["release" := NO_FLAGS];
    }
  }

  // ---- Arrays of strings ----

  predicate AllStrings(items: seq<Json>) {
    forall k :: 0 <= k < |items| ==> items[k].Str?
  }

  function Strings(ss: seq<string>): (items: seq<Json>)
    ensures AllStrings(items)
  {
    seq(|ss|, k requires 0 <= k < |ss| => Str(ss[k]))
  }

  function Unwrapped(items: seq<Json>): seq<string>
    requires AllStrings(items)
  {
    seq(|items|, k requires 0 <= k < |items| => items[k].s)
  }

  /** The ordered set of the strings of an array. */
  function Collected(items: seq<Json>): (flags: seq<string>)
    requires AllStrings(items)
  {
    if items == [] then []
    else
      var n := |items| - 1;
      Insert(Collected(items[..n]), items[n].s)
  }

  lemma {:induction false} CollectedSorted(items: seq<Json>)
    requires AllStrings(items)
    ensures Sorted(Collected(items))
  {
    if items != [] {
      var n := |items| - 1;
      CollectedSorted(items[..n]);
      InsertSorted(Collected(items[..n]), items[n].s);
    }
  }

  /** Whatever the order of an array and its duplicates, exactly its strings are collected. */
  lemma {:induction false} CollectedElements(items: seq<Json>)
    requires AllStrings(items)
    ensures forall f :: f in Collected(items) <==> exists k :: 0 <= k < |items| && items[k].s == f
  {
    if items != [] {
      var n := |items| - 1;
      CollectedElements(items[..n]);
      InsertElements(Collected(items[..n]), items[n].s);
      assert forall k :: 0 <= k < n ==> items[..n][k] == items[k];
    }
  }

  /** An ordered set that is printed as an array is collected again as it was. */
  lemma {:induction false} FlagsRoundTrip(flags: Flags)
    ensures Collected(Strings(flags)) == flags
    decreases |flags|
  {
    hide Insert, Less;
    if flags != [] {
      var n := |flags| - 1;
      assert Strings(flags)[..n] == Strings(flags[..n]);
      FlagsRoundTrip(flags[..n]);
      InsertLast(flags[..n], flags[n]);
      assert flags[..n] + [flags[n]] == flags;
    }
  }

  // ---- The schema ----

  predicate HasUnsigned(j: Json, key: string) {
    HasInt(j, key) && 0 <= j.fields[key].n < TWO_TO_THE_64
  }

  predicate HasStrings(j: Json, key: string) {
    HasArr(j, key) && AllStrings(j.fields[key].items)
  }

  predicate IsHexDigit(c: char) {
    '0' <= c <= '9' || 'a' <= c <= 'f' || 'A' <= c <= 'F'
  }

  predicate IsHex(s: string, length: nat) {
    |s| == length && forall k :: 0 <= k < |s| ==> IsHexDigit(s[k])
  }

  predicate ValidateUUID(uuid: string) {
    && |uuid| == 36
    && uuid[8] == '-' && uuid[13] == '-' && uuid[18] == '-' && uuid[23] == '-'
    && forall k :: 0 <= k < |uuid| ==> IsHexDigit(uuid[k]) || uuid[k] == '-'
  }

  predicate ValidateKeyPair(j: Json) {
    HasStr(j, "type") && j.fields["type"].s == "ed25519" && HasStr(j, "value") && IsHex(j.fields["value"].s, 64)
    && |j.fields| == 2
  }

  predicate ValidateSignature(j: Json) {
    HasStr(j, "type") && j.fields["type"].s == "ed25519" && HasStr(j, "value") && IsHex(j.fields["value"].s, 128)
  }

  predicate HasVersion(j: Json, key: string) {
    HasStr(j, key) && IsSemVersion(j.fields[key].s)
  }

  predicate ValidateSwitch(j: Json) {
    && HasStrings(j, "alpha") && HasStrings(j, "beta") && HasStrings(j, "gamma")
    && HasStrings(j, "llvm") && HasStrings(j, "lto") && HasStrings(j, "runtime")
  }

  predicate ValidateProfile(j: Json, name: string) {
    HasObj(j, name) && Has(j.fields[name], "switch") && ValidateSwitch(j.fields[name].fields["switch"])
  }

  predicate ValidateRequirements(j: Json) {
    HasUnsigned(j, "min-cores") && HasUnsigned(j, "min-memory") && HasUnsigned(j, "min-storage")
  }

  /** Only the required profiles are checked. */
  predicate ValidateOptimization(j: Json) {
    && ValidateProfile(j, "rapid") && ValidateProfile(j, "debug") && ValidateProfile(j, "release")
    && Has(j, "requirements") && ValidateRequirements(j.fields["requirements"])
  }

  predicate ValidateBlock(j: Json) {
    && HasStr(j, "uuid") && ValidateUUID(j.fields["uuid"].s)
    && HasStr(j, "category")
    && j.fields["category"].s in {"eco-root", "eco-domain", "user-account", "package", "subpackage"}
    && Has(j, "pubkey") && ValidateKeyPair(j.fields["pubkey"])
    && Has(j, "signature") && ValidateSignature(j.fields["signature"])
  }

  predicate ValidateRoles(items: seq<Json>) {
    forall k :: 0 <= k < |items| ==>
                  items[k].Str? && items[k].s in {"owner", "contributor", "maintainer", "support"}
  }

  predicate ValidateContact(j: Json) {
    && HasStr(j, "name") && HasStr(j, "email")
    && (Has(j, "phone") ==> HasStr(j, "phone"))
    && HasArr(j, "roles") && ValidateRoles(j.fields["roles"].items)
  }

  predicate ValidateDependency(j: Json) {
    HasStr(j, "uuid") && ValidateUUID(j.fields["uuid"].s) && HasVersion(j, "version")
  }

  predicate ValidatePlatforms(j: Json) {
    HasStrings(j, "allow") && HasStrings(j, "deny")
  }

  /** What the schema check looks up elsewhere: the pattern of names and the table of licences. */
  datatype Rules = Rules(validName: string -> bool, licenses: seq<SPDX.Identifier>)

  predicate VerifyHeader(rules: Rules, j: Json) {
    && HasVersion(j, "format") && "1." <= j.fields["format"].s
    && HasStr(j, "name") && rules.validName(j.fields["name"].s)
    && HasStr(j, "description")
    && HasStr(j, "license") && SPDX.IsExactSPDXLicenseMatch(rules.licenses, j.fields["license"].s)
    && HasStr(j, "category") && j.fields["category"].s in {"exe", "lib", "std"}
    && HasVersion(j, "version")
  }

  predicate VerifyContents(j: Json) {
    && HasArr(j, "contacts")
    && (forall k :: 0 <= k < |j.fields["contacts"].items| ==> ValidateContact(j.fields["contacts"].items[k]))
    && HasObj(j, "platforms") && ValidatePlatforms(j.fields["platforms"])
    && Has(j, "optimization") && ValidateOptimization(j.fields["optimization"])
    && HasArr(j, "dependencies")
    && (forall k :: 0 <= k < |j.fields["dependencies"].items| ==> ValidateDependency(j.fields["dependencies"].items[k]))
    && HasArr(j, "blockchain")
    && (forall k :: 0 <= k < |j.fields["blockchain"].items| ==> ValidateBlock(j.fields["blockchain"].items[k]))
  }

  predicate VerifyUntrustedJSON(rules: Rules, j: Json) {
    VerifyHeader(rules, j) && VerifyContents(j)
  }

  // ---- Printing ----

  function RoleName(role: Role): string {
    match role
    case Owner => "owner"
    case Contributor => "contributor"
    case Maintainer => "maintainer"
    case Support => "support"
  }

  /** The roles in the order of an ordered set. */
  function RoleList(roles: set<Role>): seq<Role> {
    (if Owner in roles then [Owner] else []) + (if Contributor in roles then [Contributor] else [])
    + (if Maintainer in roles then [Maintainer] else []) + (if Support in roles then [Support] else [])
  }

  function RolesJson(roles: seq<Role>): seq<Json> {
    seq(|roles|, k requires 0 <= k < |roles| => Str(RoleName(roles[k])))
  }

  function ContactJson(c: Contact): Json {
    var fields := map["name" := Str(c.name), "email" := Str(c.email), "roles" := Arr(RolesJson(RoleList(c.roles)))];
    Obj(if c.phone.Some? then fields["phone" := Str(c.phone.value)] else fields)
  }

  function SwitchJson(s: Switch): Json {
    Obj(map["alpha" := Arr(Strings(s.alpha)), "beta" := Arr(Strings(s.beta)), "gamma" := Arr(Strings(s.gamma)),
            "llvm" := Arr(Strings(s.llvm)), "lto" := Arr(Strings(s.lto)), "runtime" := Arr(Strings(s.runtime))])
  }

  function ProfileJson(s: Switch): Json {
    Obj(map["switch" := SwitchJson(s)])
  }

  function RequirementsJson(r: Requirements): Json {
    Obj(map["min-cores" := Int(r.minCores), "min-memory" := Int(r.minMemory), "min-storage" := Int(r.minStorage)])
  }

  function OptimizationJson(o: Optimization): Json
    requires HasRequired(o.profiles)
  {
    Obj(map["rapid" := ProfileJson(o.profiles["rapid"]), "debug" := ProfileJson(o.profiles["debug"]),
            "release" := ProfileJson(o.profiles["release"]), "requirements" := RequirementsJson(o.requirements)])
  }

  function DependencyJson(d: Dependency): Json {
    Obj(map["uuid" := Str(d.uuid), "version" := Str(EncodeSemanticVersion(d.version))])
  }

  function CategoryName(category: Category): string {
    match category
    case StandardLibrary => "std"
    case Library => "lib"
    case Executable => "exe"
  }

  function ContactsJson(contacts: seq<Contact>): seq<Json> {
    seq(|contacts|, k requires 0 <= k < |contacts| => ContactJson(contacts[k]))
  }

  function DependenciesJson(dependencies: seq<Dependency>): seq<Json> {
    seq(|dependencies|, k requires 0 <= k < |dependencies| => DependencyJson(dependencies[k]))
  }

  function ManifestJson(m: Manifest): Json
    requires HasRequired(m.optimization.profiles)
  {
    Obj(map["format" := Str("1.0"),
            "name" := Str(m.name),
            "description" := Str(m.description),
            "license" := Str(m.license),
            "category" := Str(CategoryName(m.category)),
            "version" := Str(EncodeSemanticVersion(m.version)),
            "contacts" := Arr(ContactsJson(m.contacts)),
            "platforms" := Obj(map["allow" := Arr(Strings(m.allow)), "deny" := Arr(Strings(m.deny))]),
            "optimization" := OptimizationJson(m.optimization),
            "dependencies" := Arr(DependenciesJson(m.dependencies)),
            "blockchain" := Arr([])])
  }

  method PrintContact(c: Contact) returns (j: Json)
    ensures j == ContactJson(c)
  {
    var list, roles := RoleList(c.roles), [];
    for k := 0 to |list|
      invariant roles == RolesJson(list[..k])
    {
      roles := roles + [Str(RoleName(list[k]))];
    }
    assert list[..|list|] == list;
    var fields := map["name" := Str(c.name), "email" := Str(c.email)];
    if c.phone.Some? {
      fields := fields["phone" := Str(c.phone.value)];
    }
    j := Obj(fields["roles" := Arr(roles)]);
  }

  /** Prints a manifest, and tells whether what it prints has a correct schema. */
  method ToJson(m: Manifest, rules: Rules) returns (j: Json, correctSchema: bool)
    requires HasRequired(m.optimization.profiles)
    ensures j == ManifestJson(m) && correctSchema == VerifyUntrustedJSON(rules, j)
  {
    hide ContactJson, DependencyJson, VerifyUntrustedJSON, OptimizationJson, EncodeSemanticVersion;
    var contacts: seq<Json> := [];
    for i := 0 to |m.contacts|
      invariant contacts == ContactsJson(m.contacts[..i])
    {
      var contact := PrintContact(m.contacts[i]);
      contacts := contacts + [contact];
    }
    assert m.contacts[..|m.contacts|] == m.contacts;
    var dependencies: seq<Json> := [];
    for i := 0 to |m.dependencies|
      invariant dependencies == DependenciesJson(m.dependencies[..i])
    {
      dependencies := dependencies + [DependencyJson(m.dependencies[i])];
    }
    assert m.dependencies[..|m.dependencies|] == m.dependencies;
    j := Obj(map["format" := Str("1.0"), "name" := Str(m.name), "description" := Str(m.description),
                 "license" := Str(m.license), "category" := Str(CategoryName(m.category)),
                 "version" := Str(EncodeSemanticVersion(m.version)), "contacts" := Arr(contacts),
                 "platforms" := Obj(map["allow" := Arr(Strings(m.allow)), "deny" := Arr(Strings(m.deny))]),
                 "optimization" := OptimizationJson(m.optimization), "dependencies" := Arr(dependencies),
                 "blockchain" := Arr([])]);
    correctSchema := VerifyUntrustedJSON(rules, j);
  }

  // ---- Reading ----

  function RoleOf(name: string): Role
    requires name in {"owner", "contributor", "maintainer", "support"}
  {
    if name == "owner" then Owner
    else if name == "contributor" then Contributor
    else if name == "maintainer" then Maintainer
    else Support
  }

  function RolesOf(items: seq<Json>): set<Role>
    requires ValidateRoles(items)
  {
    set k | 0 <= k < |items| :: RoleOf(items[k].s)
  }

  function ContactOf(j: Json): Contact
    requires ValidateContact(j)
  {
    Contact(j.fields["name"].s, j.fields["email"].s, RolesOf(j.fields["roles"].items),
            if Has(j, "phone") then Some(j.fields["phone"].s) else None)
  }

  function StageOf(j: Json, key: string): Flags
    requires HasStrings(j, key)
  {
    CollectedSorted(j.fields[key].items);
    Collected(j.fields[key].items)
  }

  function SwitchOf(j: Json): Switch
    requires ValidateSwitch(j)
  {
    Switch(StageOf(j, "alpha"), StageOf(j, "beta"), StageOf(j, "gamma"), StageOf(j, "llvm"), StageOf(j, "lto"),
           StageOf(j, "runtime"))
  }

  /** Requirements are read as 32-bit numbers. */
  function RequirementsOf(j: Json): Requirements
    requires ValidateRequirements(j)
  {
    Requirements(j.fields["min-cores"].n % TWO_TO_THE_32, j.fields["min-memory"].n % TWO_TO_THE_32,
                 j.fields["min-storage"].n % TWO_TO_THE_32)
  }

  /** Every member but the requirements is taken for a profile, but the schema checks only the required ones. */
  predicate ProfilesReadable(j: Json) {
    j.Obj? && forall key :: key in j.fields && key != "requirements" ==> ValidateProfile(j, key)
  }

  /** The requirements, and the profiles that are well-formed. */
  function OptimizationOf(j: Json): Optimization
    requires ValidateOptimization(j)
  {
    Optimization(map key | key in j.fields && key != "requirements" && ValidateProfile(j, key) ::
                   SwitchOf(j.fields[key].fields["switch"]),
                 RequirementsOf(j.fields["requirements"]))
  }

  function DependencyOf(j: Json): Option<Dependency>
    requires ValidateDependency(j)
  {
    match ConvertSemanticVersion(j.fields["version"].s)
    case None => None
    case Some(version) => Some(Dependency(j.fields["uuid"].s, version))
  }

  /** None if one of them cannot be read. */
  function DependenciesOf(items: seq<Json>): Option<seq<Dependency>>
    requires forall k :: 0 <= k < |items| ==> ValidateDependency(items[k])
  {
    if items == [] then Some([])
    else
      var n := |items| - 1;
      var before, last := DependenciesOf(items[..n]), DependencyOf(items[n]);
      if before.None? || last.None? then None else Some(before.value + [last.value])
  }

  function ContactsOf(items: seq<Json>): seq<Contact>
    requires forall k :: 0 <= k < |items| ==> ValidateContact(items[k])
  {
    seq(|items|, k requires 0 <= k < |items| => ContactOf(items[k]))
  }

  function CategoryOf(name: string): Category
    requires name in {"exe", "lib", "std"}
  {
    if name == "std" then StandardLibrary else if name == "lib" then Library else Executable
  }

  /** What becomes of a value read: `Thrown` if a version number exceeds 64 bits, `Unspecified` if a profile that the
      schema does not check is not well-formed. */
  datatype ReadResult = Read(manifest: Manifest) | Rejected | Thrown | Unspecified

  /** What a verified value reads as. */
  function InstanceOf(rules: Rules, j: Json): ReadResult
    requires VerifyUntrustedJSON(rules, j)
  {
    var version := ConvertSemanticVersion(j.fields["version"].s);
    var dependencies := DependenciesOf(j.fields["dependencies"].items);
    if version.None? then Thrown
    else if !ProfilesReadable(j.fields["optimization"]) then Unspecified
    else if dependencies.None? then Thrown
    else
      var platforms := j.fields["platforms"];
      Read(Manifest(j.fields["name"].s, j.fields["description"].s, j.fields["license"].s,
                    CategoryOf(j.fields["category"].s), version.value, ContactsOf(j.fields["contacts"].items),
                    Unwrapped(platforms.fields["allow"].items), Unwrapped(platforms.fields["deny"].items),
                    OptimizationOf(j.fields["optimization"]), dependencies.value))
  }

  lemma {:induction false} DependenciesRead(items: seq<Json>)
    requires forall k :: 0 <= k < |items| ==> ValidateDependency(items[k])
    ensures DependenciesOf(items).Some? <==> forall k :: 0 <= k < |items| ==> DependencyOf(items[k]).Some?
  {
    hide ValidateDependency, DependencyOf;
    if items != [] {
      var n := |items| - 1;
      DependenciesRead(items[..n]);
      assert forall k :: 0 <= k < n ==> items[..n][k] == items[k];
    }
  }

  /** A manifest is read from a verified value exactly when its profiles are well-formed, those that the schema does not
      check included, and no version number exceeds 64 bits. */
  lemma ReadsIff(rules: Rules, j: Json)
    requires VerifyUntrustedJSON(rules, j)
    ensures InstanceOf(rules, j).Read? <==>
            && ProfilesReadable(j.fields["optimization"])
            && ConvertSemanticVersion(j.fields["version"].s).Some?
            && forall k :: 0 <= k < |j.fields["dependencies"].items| ==>
                             DependencyOf(j.fields["dependencies"].items[k]).Some?
  {
    hide IsSemVersion, ConvertSemanticVersion, ValidateOptimization, ProfilesReadable, ValidateContact, ValidateBlock,
      OptimizationOf, ValidateUUID, SPDX.IsExactSPDXLicenseMatch, DependencyOf, DependenciesOf, ContactsOf;
    DependenciesRead(j.fields["dependencies"].items);
  }

  // ---- Reading in place ----

  method ConvertOptimizationSwitchStage(j: Json, key: string) returns (v: Flags)
    requires HasStrings(j, key)
    ensures v == StageOf(j, key)
  {
    var items := j.fields[key].items;
    v := [];
    for k := 0 to |items|
      invariant v == Collected(items[..k])
    {
      assert items[..k + 1][..k] == items[..k];
      InsertSorted(v, items[k].s);
      v := Insert(v, items[k].s);
    }
    assert items[..|items|] == items;
  }

  method ConvertOptimizationSwitch(j: Json) returns (s: Switch)
    requires ValidateSwitch(j)
    ensures s == SwitchOf(j)
  {
    var alpha := ConvertOptimizationSwitchStage(j, "alpha");
    var beta := ConvertOptimizationSwitchStage(j, "beta");
    var gamma := ConvertOptimizationSwitchStage(j, "gamma");
    var llvm := ConvertOptimizationSwitchStage(j, "llvm");
    var lto := ConvertOptimizationSwitchStage(j, "lto");
    var runtime := ConvertOptimizationSwitchStage(j, "runtime");
    s := Switch(alpha, beta, gamma, llvm, lto, runtime);
  }

  /** Of the profiles to be read, those visited so far are in place; the required ones are there from the start. */
  ghost predicate Filled(profiles: Profiles, all: Profiles, left: set<string>) {
    && left <= all.Keys && REQUIRED <= all.Keys
    && profiles.Keys == REQUIRED + (all.Keys - left)
    && forall key :: key in all && key !in left ==> profiles[key] == all[key]
  }

  lemma FilledSteps(profiles: Profiles, all: Profiles, left: set<string>)
    requires Filled(profiles, all, left)
    ensures forall key :: key in left ==> key in all && Filled(profiles[key := all[key]], all, left - {key})
    ensures left == {} ==> profiles == all
  {
    hide REQUIRED;
  }

  lemma NothingFilled(all: Profiles)
    requires REQUIRED <= all.Keys
    ensures Filled(NO_PROFILES, all, all.Keys)
  {
  }

  /** Sets the profiles one by one, in whatever order the members are visited, until one cannot be read. */
  method SetProfiles(o: OptimizationBuilder, j: Json, ghost all: Profiles) returns (ok: bool)
    requires ValidateOptimization(j) && all == OptimizationOf(j).profiles
    requires o.Valid() && Filled(o.profiles, all, all.Keys)
    modifies o`profiles
    ensures o.Valid() && ok == ProfilesReadable(j)
    ensures ok ==> o.profiles == all
  {
    hide Filled, ValidateOptimization, ValidateProfile, OptimizationOf, REQUIRED, NO_PROFILES, NO_FLAGS;
    RequiredPresent(j);
    var left := j.fields.Keys - {"requirements"};
    assert all.Keys * left == all.Keys;
    while left != {}
      invariant left <= j.fields.Keys - {"requirements"}
      invariant o.Valid() && Filled(o.profiles, all, all.Keys * left)
      invariant forall key :: key in j.fields && key != "requirements" && key !in left ==> ValidateProfile(j, key)
      decreases |left|
    {
      var key :| key in left;
      if !ValidateProfile(j, key) {
        return false;
      }
      var profile := ConvertProfile(j, key);
      FilledSteps(o.profiles, all, all.Keys * left);
      o.SetProfile(key, profile);
      assert all.Keys * (left - {key}) == all.Keys * left - {key};
      left := left - {key};
    }
    FilledSteps(o.profiles, all, all.Keys * left);
    return true;
  }

  method ConvertOptimization(j: Json) returns (ok: bool, o: OptimizationBuilder)
    requires ValidateOptimization(j)
    ensures fresh(o) && o.Valid() && ok == ProfilesReadable(j)
    ensures ok ==> Optimization(o.profiles, o.requirements) == OptimizationOf(j)
  {
    RequiredPresent(j);
    NothingFilled(OptimizationOf(j).profiles);
    hide *;
    o := new OptimizationBuilder();
    o.requirements := RequirementsOf(j.fields["requirements"]);
    ok := SetProfiles(o, j, OptimizationOf(j).profiles);
  }

  method ConvertProfile(j: Json, key: string) returns (profile: Switch)
    requires ValidateOptimization(j) && key in j.fields && key != "requirements" && ValidateProfile(j, key)
    ensures key in OptimizationOf(j).profiles && profile == OptimizationOf(j).profiles[key]
  {
    hide SwitchOf, ValidateSwitch, ValidateOptimization;
    profile := ConvertOptimizationSwitch(j.fields[key].fields["switch"]);
  }

  lemma RequiredPresent(j: Json)
    requires ValidateOptimization(j)
    ensures j.Obj? && REQUIRED <= OptimizationOf(j).profiles.Keys <= j.fields.Keys - {"requirements"}
    ensures "requirements" in j.fields && ValidateRequirements(j.fields["requirements"])
    ensures OptimizationOf(j).requirements == RequirementsOf(j.fields["requirements"])
  {
  }

  method ConvertContact(j: Json) returns (c: Contact)
    requires ValidateContact(j)
    ensures c == ContactOf(j)
  {
    var items := j.fields["roles"].items;
    var roles: set<Role> := {};
    for k := 0 to |items|
      invariant roles == RolesOf(items[..k])
    {
      RolesAppend(items, k);
      roles := roles + {RoleOf(items[k].s)};
    }
    assert items[..|items|] == items;
    c := Contact(j.fields["name"].s, j.fields["email"].s, roles, None);
    if Has(j, "phone") {
      c := c.(phone := Some(j.fields["phone"].s));
    }
  }

  lemma RolesAppend(items: seq<Json>, k: nat)
    requires ValidateRoles(items) && k < |items|
    ensures RolesOf(items[..k + 1]) == RolesOf(items[..k]) + {RoleOf(items[k].s)}
  {
    forall role | role in RolesOf(items[..k]) ensures role in RolesOf(items[..k + 1]) {
      var i :| 0 <= i < k && role == RoleOf(items[..k][i].s);
      assert items[..k + 1][i] == items[..k][i];
    }
    assert items[..k + 1][k] == items[k];
    forall role | role in RolesOf(items[..k + 1]) ensures role in RolesOf(items[..k]) + {RoleOf(items[k].s)} {
      var i :| 0 <= i < k + 1 && role == RoleOf(items[..k + 1][i].s);
      assert i < k ==> items[..k][i] == items[..k + 1][i];
    }
  }

  /** Fills in a manifest from a verified value. */
  method ObjectToInstance(rules: Rules, j: Json) returns (r: ReadResult)
    requires VerifyUntrustedJSON(rules, j)
    ensures r == InstanceOf(rules, j)
  {
    hide IsSemVersion, ConvertSemanticVersion, ValidateOptimization, ProfilesReadable, ValidateContact, ValidateBlock,
      OptimizationOf, ValidateUUID, SPDX.IsExactSPDXLicenseMatch;
    var version := ConvertSemanticVersion(j.fields["version"].s);
    if version.None? {
      return Thrown;
    }
    var contacts: seq<Contact> := [];
    var items := j.fields["contacts"].items;
    for i := 0 to |items|
      invariant contacts == ContactsOf(items[..i])
    {
      var contact := ConvertContact(items[i]);
      contacts := contacts + [contact];
    }
    assert items[..|items|] == items;
    var platforms := j.fields["platforms"];
    var ok, optimization := ConvertOptimization(j.fields["optimization"]);
    if !ok {
      return Unspecified;
    }
    var dependencies: seq<Dependency> := [];
    var deps := j.fields["dependencies"].items;
    for i := 0 to |deps|
      invariant DependenciesOf(deps[..i]) == Some(dependencies)
    {
      assert deps[..i + 1][..i] == deps[..i];
      var dependency := DependencyOf(deps[i]);
      if dependency.None? {
        DependenciesRead(deps);
        return Thrown;
      }
      dependencies := dependencies + [dependency.value];
    }
    assert deps[..|deps|] == deps;
    r := Read(Manifest(j.fields["name"].s, j.fields["description"].s, j.fields["license"].s,
                       CategoryOf(j.fields["category"].s), version.value, contacts,
                       Unwrapped(platforms.fields["allow"].items), Unwrapped(platforms.fields["deny"].items),
                       Optimization(optimization.profiles, optimization.requirements), dependencies));
  }

  /** Reads a parsed value back, unless its schema is not correct. */
  method FromJson(rules: Rules, json: Option<Json>) returns (r: ReadResult)
    ensures r.Rejected? <==> json.None? || !VerifyUntrustedJSON(rules, json.value)
    ensures !r.Rejected? ==> r == InstanceOf(rules, json.value)
  {
    if json.None? {
      return Rejected;
    }
    if !VerifyUntrustedJSON(rules, json.value) {
      return Rejected;
    }
    r := ObjectToInstance(rules, json.value);
  }
}
