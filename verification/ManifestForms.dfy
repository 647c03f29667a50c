/** What a manifest says does not depend on members that nobody reads. */
module ManifestForms {
  import opened Wrappers
  import opened JsonValues
  import opened Manifest
  import opened SemanticVersion
  import SPDX

  /** The names of the members that are read, outside the build profiles and the ownership chain. */
  const READ := {"format", "name", "description", "license", "category", "version", "contacts", "platforms",
                 "optimization", "dependencies", "blockchain", "email", "roles", "phone", "allow", "deny", "uuid"}

  /** Two values of a member that are the same, not only the same with further members. */
  predicate SameValue(j: Json, j': Json, key: string) {
    Has(j, key) && Has(j', key) ==> j.fields[key] == j'.fields[key]
  }

  lemma StringsIncluded(items: seq<Json>, items': seq<Json>, read: set<string>)
    requires |items| == |items'| && forall k :: 0 <= k < |items| ==> Includes(items[k], items'[k], read)
    ensures AllStrings(items) <==> AllStrings(items')
    ensures AllStrings(items) ==> items == items'
  {
    forall k | 0 <= k < |items| ensures items[k].Str? || items'[k].Str? ==> items[k] == items'[k] {
      assert Includes(items[k], items'[k], read);
    }
  }

  lemma SameStrings(j: Json, j': Json, read: set<string>, key: string)
    requires Includes(j, j', read) && key in read
    ensures HasStrings(j, key) <==> HasStrings(j', key)
    ensures HasStrings(j, key) ==> j.fields[key].items == j'.fields[key].items
  {
    hide Includes, AllStrings;
    SameMember(j, j', read, key);
    if HasArr(j, key) {
      SameItems(j, j', read, key);
      StringsIncluded(j.fields[key].items, j'.fields[key].items, read);
    }
  }

  lemma PlatformExtras(j: Json, j': Json)
    requires Includes(j, j', READ)
    ensures ValidatePlatforms(j) <==> ValidatePlatforms(j')
    ensures ValidatePlatforms(j) ==>
              j.fields["allow"].items == j'.fields["allow"].items && j.fields["deny"].items == j'.fields["deny"].items
  {
    hide Includes;
    SameStrings(j, j', READ, "allow");
    SameStrings(j, j', READ, "deny");
  }

  lemma RolesAreStrings(items: seq<Json>)
    ensures ValidateRoles(items) ==> AllStrings(items)
  {
  }

  lemma ContactExtras(j: Json, j': Json)
    requires Includes(j, j', READ)
    ensures ValidateContact(j) <==> ValidateContact(j')
    ensures ValidateContact(j) ==> ContactOf(j) == ContactOf(j')
  {
    hide Includes, ValidateRoles, RolesOf, AllStrings;
    SameMember(j, j', READ, "name");
    SameMember(j, j', READ, "email");
    SameMember(j, j', READ, "phone");
    SameMember(j, j', READ, "roles");
    SameStrings(j, j', READ, "roles");
    if HasArr(j, "roles") {
      RolesAreStrings(j.fields["roles"].items);
      RolesAreStrings(j'.fields["roles"].items);
    }
  }

  lemma DependencyExtras(j: Json, j': Json)
    requires Includes(j, j', READ)
    ensures ValidateDependency(j) <==> ValidateDependency(j')
    ensures ValidateDependency(j) ==> DependencyOf(j) == DependencyOf(j')
  {
    hide Includes, ValidateUUID, IsSemVersion, ConvertSemanticVersion;
    SameMember(j, j', READ, "uuid");
    SameMember(j, j', READ, "version");
  }

  lemma {:induction false} DependenciesExtras(items: seq<Json>, items': seq<Json>)
    requires |items| == |items'| && forall k :: 0 <= k < |items| ==> Includes(items[k], items'[k], READ)
    ensures (forall k :: 0 <= k < |items| ==> ValidateDependency(items[k]))
            <==> forall k :: 0 <= k < |items| ==> ValidateDependency(items'[k])
    ensures (forall k :: 0 <= k < |items| ==> ValidateDependency(items[k])) ==>
              DependenciesOf(items) == DependenciesOf(items')
  {
    hide Includes, ValidateDependency, DependencyOf;
    forall k | 0 <= k < |items|
      ensures ValidateDependency(items[k]) <==> ValidateDependency(items'[k])
      ensures ValidateDependency(items[k]) ==> DependencyOf(items[k]) == DependencyOf(items'[k])
    {
      DependencyExtras(items[k], items'[k]);
    }
    if items != [] {
      DependenciesExtras(items[..|items| - 1], items'[..|items| - 1]);
    }
  }

  lemma ContactsExtras(items: seq<Json>, items': seq<Json>)
    requires |items| == |items'| && forall k :: 0 <= k < |items| ==> Includes(items[k], items'[k], READ)
    ensures (forall k :: 0 <= k < |items| ==> ValidateContact(items[k]))
            <==> forall k :: 0 <= k < |items| ==> ValidateContact(items'[k])
    ensures (forall k :: 0 <= k < |items| ==> ValidateContact(items[k])) ==> ContactsOf(items) == ContactsOf(items')
  {
    hide Includes, ValidateContact, ContactOf;
    forall k | 0 <= k < |items|
      ensures ValidateContact(items[k]) <==> ValidateContact(items'[k])
      ensures ValidateContact(items[k]) ==> ContactOf(items[k]) == ContactOf(items'[k])
    {
      ContactExtras(items[k], items'[k]);
    }
  }

  lemma HeaderExtras(rules: Rules, j: Json, j': Json)
    requires Includes(j, j', READ)
    ensures VerifyHeader(rules, j) <==> VerifyHeader(rules, j')
    ensures VerifyHeader(rules, j) ==>
              forall key :: key in {"name", "description", "license", "category", "version"} ==>
                              Has(j, key) && Has(j', key) && j.fields[key] == j'.fields[key]
  {
    hide Includes, IsSemVersion, SPDX.IsExactSPDXLicenseMatch;
    SameMember(j, j', READ, "format");
    SameMember(j, j', READ, "name");
    SameMember(j, j', READ, "description");
    SameMember(j, j', READ, "license");
    SameMember(j, j', READ, "category");
    SameMember(j, j', READ, "version");
  }

  lemma ContentsExtras(j: Json, j': Json)
    requires Includes(j, j', READ) && SameValue(j, j', "optimization") && SameValue(j, j', "blockchain")
    ensures VerifyContents(j) <==> VerifyContents(j')
    ensures VerifyContents(j) ==>
              && ContactsOf(j.fields["contacts"].items) == ContactsOf(j'.fields["contacts"].items)
              && DependenciesOf(j.fields["dependencies"].items) == DependenciesOf(j'.fields["dependencies"].items)
              && j.fields["platforms"].fields["allow"].items == j'.fields["platforms"].fields["allow"].items
              && j.fields["platforms"].fields["deny"].items == j'.fields["platforms"].fields["deny"].items
  {
    hide Includes, ValidateContact, ContactsOf, ValidateDependency, DependenciesOf, ValidatePlatforms,
      ValidateOptimization, ValidateBlock;
    SameMember(j, j', READ, "contacts");
    SameMember(j, j', READ, "platforms");
    SameMember(j, j', READ, "optimization");
    SameMember(j, j', READ, "dependencies");
    SameMember(j, j', READ, "blockchain");
    if HasArr(j, "contacts") {
      SameItems(j, j', READ, "contacts");
      ContactsExtras(j.fields["contacts"].items, j'.fields["contacts"].items);
    }
    if HasArr(j, "dependencies") {
      SameItems(j, j', READ, "dependencies");
      DependenciesExtras(j.fields["dependencies"].items, j'.fields["dependencies"].items);
    }
    if HasObj(j, "platforms") {
      PlatformExtras(j.fields["platforms"], j'.fields["platforms"]);
      PlatformLists(j.fields["platforms"]);
    }
  }

  lemma PlatformLists(j: Json)
    ensures ValidatePlatforms(j) ==> HasArr(j, "allow") && HasArr(j, "deny")
  {
  }

  /** Members that nobody reads, anywhere but among the build profiles and in the ownership chain, change neither
      whether a value has a correct schema nor the manifest that is read from it. */
  lemma ExtrasIgnored(rules: Rules, j: Json, j': Json)
    requires Includes(j, j', READ) && SameValue(j, j', "optimization") && SameValue(j, j', "blockchain")
    ensures VerifyUntrustedJSON(rules, j) <==> VerifyUntrustedJSON(rules, j')
    ensures VerifyUntrustedJSON(rules, j) ==> InstanceOf(rules, j) == InstanceOf(rules, j')
  {
    hide InstanceOf, Includes, VerifyHeader, VerifyContents;
    HeaderExtras(rules, j, j');
    ContentsExtras(j, j');
    if VerifyUntrustedJSON(rules, j) {
      SameInstance(rules, j, j');
    }
  }

  lemma SameInstance(rules: Rules, j: Json, j': Json)
    requires Includes(j, j', READ) && SameValue(j, j', "optimization")
    requires VerifyUntrustedJSON(rules, j) && VerifyUntrustedJSON(rules, j')
    requires ContactsOf(j.fields["contacts"].items) == ContactsOf(j'.fields["contacts"].items)
    requires DependenciesOf(j.fields["dependencies"].items) == DependenciesOf(j'.fields["dependencies"].items)
    requires j.fields["platforms"].fields["allow"].items == j'.fields["platforms"].fields["allow"].items
    requires j.fields["platforms"].fields["deny"].items == j'.fields["platforms"].fields["deny"].items
    ensures InstanceOf(rules, j) == InstanceOf(rules, j')
  {
    hide Includes, IsSemVersion, ConvertSemanticVersion, ValidateOptimization, ProfilesReadable, OptimizationOf,
      ValidateContact, ContactsOf, ValidateDependency, DependenciesOf, ValidateBlock, SPDX.IsExactSPDXLicenseMatch;
    HeaderExtras(rules, j, j');
  }
}
