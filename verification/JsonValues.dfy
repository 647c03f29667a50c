/** JSON values, as the JSON library hands them over, and the members of an object. */
module JsonValues {

  /** The characters of a string are the bytes of its UTF-8 form. */
  datatype Json =
    | Null
    | Bool(b: bool)
    | Int(n: int)
    | Float(x: real)
    | Str(s: string)
    | Arr(items: seq<Json>)
    | Obj(fields: map<string, Json>)

  predicate Has(j: Json, key: string) {
    j.Obj? && key in j.fields
  }

  predicate HasInt(j: Json, key: string) {
    Has(j, key) && j.fields[key].Int?
  }

  predicate HasStr(j: Json, key: string) {
    Has(j, key) && j.fields[key].Str?
  }

  predicate HasObj(j: Json, key: string) {
    Has(j, key) && j.fields[key].Obj?
  }

  predicate HasArr(j: Json, key: string) {
    Has(j, key) && j.fields[key].Arr?
  }

  // ---- Further members ----

  /** The second value is the first with further members, of any object in it and with any name not among those read. */
  ghost predicate Includes(j: Json, j': Json, read: set<string>)
    decreases j
  {
    match j
    case Arr(items) =>
      && j'.Arr? && |j'.items| == |items|
      && forall k :: 0 <= k < |items| ==> Includes(items[k], j'.items[k], read)
    case Obj(fields) =>
      && j'.Obj? && fields.Keys <= j'.fields.Keys && (j'.fields.Keys - fields.Keys) !! read
      && forall key :: key in fields ==> Includes(fields[key], j'.fields[key], read)
    case _ => j' == j
  }

  /** A member that is read is there or not in both values, and of the same kind; a number or a string is the same. */
  lemma SameMember(j: Json, j': Json, read: set<string>, key: string)
    requires Includes(j, j', read) && key in read
    ensures Has(j, key) <==> Has(j', key)
    ensures HasInt(j, key) <==> HasInt(j', key)
    ensures HasStr(j, key) <==> HasStr(j', key)
    ensures HasObj(j, key) <==> HasObj(j', key)
    ensures HasArr(j, key) <==> HasArr(j', key)
    ensures Has(j, key) ==> Includes(j.fields[key], j'.fields[key], read)
    ensures HasInt(j, key) || HasStr(j, key) ==> j.fields[key] == j'.fields[key]
  {
    if Has(j, key) {
      assert Includes(j.fields[key], j'.fields[key], read);
    }
  }

  lemma SameItems(j: Json, j': Json, read: set<string>, key: string)
    requires Includes(j, j', read) && key in read && HasArr(j, key)
    ensures HasArr(j', key) && |j'.fields[key].items| == |j.fields[key].items|
    ensures forall k :: 0 <= k < |j.fields[key].items| ==>
                          Includes(j.fields[key].items[k], j'.fields[key].items[k], read)
  {
    SameMember(j, j', read, key);
  }
}
