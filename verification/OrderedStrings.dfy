/** Ordered sets of strings, as the strictly increasing sequences in which they are walked. */
module OrderedStrings {

  /** The lexicographic order in which an ordered set of strings keeps its elements. */
  predicate Less(a: string, b: string) {
    b != "" && (a == "" || a[0] < b[0] || (a[0] == b[0] && Less(a[1..], b[1..])))
  }

  predicate Sorted(flags: seq<string>) {
    forall i, j :: 0 <= i < j < |flags| ==> Less(flags[i], flags[j])
  }

  /** An ordered set of strings, as the sequence of its elements. */
  type Flags = flags: seq<string> | Sorted(flags)

  lemma {:induction false} LessOrder(a: string, b: string, c: string)
    ensures !Less(a, a)
    ensures Less(a, b) ==> !Less(b, a)
    ensures Less(a, b) || Less(b, a) || a == b
    ensures Less(a, b) && Less(b, c) ==> Less(a, c)
  {
    if a != "" && b != "" {
      LessOrder(a[1..], b[1..], if c == "" then "" else c[1..]);
      assert a[0] == b[0] && a[1..] == b[1..] ==> a == [a[0]] + a[1..] == b;
    } else if a != "" {
      LessOrder(a[1..], "", "");
    }
  }

  function Insert(flags: seq<string>, flag: string): seq<string> {
    if flags == [] || Less(flag, flags[0]) then [flag] + flags
    else if flag == flags[0] then flags
    else [flags[0]] + Insert(flags[1..], flag)
  }

  lemma {:induction false} InsertElements(flags: seq<string>, flag: string)
    ensures forall f :: f in Insert(flags, flag) <==> f in flags || f == flag
  {
    if flags != [] && !Less(flag, flags[0]) && flag != flags[0] {
      InsertElements(flags[1..], flag);
    }
  }

  lemma {:induction false} InsertSorted(flags: seq<string>, flag: string)
    requires Sorted(flags)
    ensures Sorted(Insert(flags, flag))
  {
    if flags != [] {
      LessOrder(flag, flags[0], "");
      if Less(flag, flags[0]) {
        forall i | 0 <= i < |flags| ensures Less(flag, flags[i]) {
          LessOrder(flag, flags[0], flags[i]);
        }
      } else if flag != flags[0] {
        InsertSorted(flags[1..], flag);
        InsertElements(flags[1..], flag);
        var r := Insert(flags[1..], flag);
        forall j | 0 <= j < |r| ensures Less(flags[0], r[j]) {
          assert r[j] in r;
        }
      }
    }
  }

  lemma {:induction false} InsertLast(flags: seq<string>, flag: string)
    requires forall i :: 0 <= i < |flags| ==> Less(flags[i], flag)
    ensures Insert(flags, flag) == flags + [flag]
  {
    if flags != [] {
      LessOrder(flags[0], flag, "");
      InsertLast(flags[1..], flag);
    }
  }
}
