/**
 The nearest licence identifier by edit distance. The memoised recursion is proved to compute the cost of a cheapest
 edit script, which makes it a metric; the search is proved to return a nearest identifier.
 */
module SPDX {

  // ---- Edit scripts ----

  /** One step of an edit script that reads one string and writes another. Replacing a character by itself is free. */
  datatype Edit = Insert(to: char) | Delete(from: char) | Replace(from: char, to: char)

  type Script = seq<Edit>

  function Source(script: Script): string {
    if script == [] then ""
    else (if script[0].Insert? then "" else [script[0].from]) + Source(script[1..])
  }

  function Target(script: Script): string {
    if script == [] then ""
    else (if script[0].Delete? then "" else [script[0].to]) + Target(script[1..])
  }

  function StepCost(edit: Edit): nat {
    if edit.Replace? && edit.from == edit.to then 0 else 1
  }

  function Cost(script: Script): nat {
    if script == [] then 0 else StepCost(script[0]) + Cost(script[1..])
  }

  ghost predicate Edits(script: Script, a: string, b: string) {
    Source(script) == a && Target(script) == b
  }

  // ---- The recursion ----

  function Min(x: nat, y: nat): nat {
    if x <= y then x else y
  }

  function Min3(x: nat, y: nat, z: nat): nat {
    Min(x, Min(y, z))
  }

  /** The distance, by the recursion on suffixes that the memo table caches: equal characters are matched greedily. */
  function Distance(a: string, b: string): nat
    decreases |a| + |b|
  {
    if a == "" then |b|
    else if b == "" then |a|
    else if a[0] == b[0] then Distance(a[1..], b[1..])
    else 1 + Min3(Distance(a, b[1..]), Distance(a[1..], b), Distance(a[1..], b[1..]))
  }

  // ---- The distance is the cost of a cheapest script ----

  lemma {:induction false} ScriptHead(edit: Edit, script: Script)
    ensures Source([edit] + script) == (if edit.Insert? then "" else [edit.from]) + Source(script)
    ensures Target([edit] + script) == (if edit.Delete? then "" else [edit.to]) + Target(script)
    ensures Cost([edit] + script) == StepCost(edit) + Cost(script)
  {
    assert ([edit] + script)[1..] == script;
  }

  lemma {:induction false} InsertAll(b: string) returns (script: Script)
    ensures Edits(script, "", b) && Cost(script) == |b|
  {
    script := [];
    if b != "" {
      var rest := InsertAll(b[1..]);
      ScriptHead(Insert(b[0]), rest);
      script := [Insert(b[0])] + rest;
    }
  }

  lemma {:induction false} DeleteAll(a: string) returns (script: Script)
    ensures Edits(script, a, "") && Cost(script) == |a|
  {
    script := [];
    if a != "" {
      var rest := DeleteAll(a[1..]);
      ScriptHead(Delete(a[0]), rest);
      script := [Delete(a[0])] + rest;
    }
  }

  lemma {:induction false} CheapestScript(a: string, b: string) returns (script: Script)
    ensures Edits(script, a, b) && Cost(script) == Distance(a, b)
    decreases |a| + |b|
  {
    if a == "" {
      script := InsertAll(b);
    } else if b == "" {
      script := DeleteAll(a);
    } else {
      var edit: Edit, rest: Script;
      if a[0] == b[0] || Distance(a, b) == 1 + Distance(a[1..], b[1..]) {
        edit := Replace(a[0], b[0]);
        rest := CheapestScript(a[1..], b[1..]);
      } else if Distance(a, b) == 1 + Distance(a, b[1..]) {
        edit := Insert(b[0]);
        rest := CheapestScript(a, b[1..]);
      } else {
        edit := Delete(a[0]);
        rest := CheapestScript(a[1..], b);
      }
      ScriptHead(edit, rest);
      script := [edit] + rest;
    }
  }

  /** Dropping the first character of either string changes the distance by at most one: the exchange argument behind
      matching equal characters greedily. */
  lemma {:induction false} DropOne(a: string, b: string)
    ensures a != "" ==> Distance(a[1..], b) <= 1 + Distance(a, b) && Distance(a, b) <= 1 + Distance(a[1..], b)
    ensures b != "" ==> Distance(a, b[1..]) <= 1 + Distance(a, b) && Distance(a, b) <= 1 + Distance(a, b[1..])
    decreases |a| + |b|
  {
    if a != "" && b != "" {
      DropOne(a[1..], b[1..]);
      DropOne(a[1..], b);
      DropOne(a, b[1..]);
    }
  }

  lemma StepBound(a: string, b: string)
    ensures a != "" ==> Distance(a, b) <= 1 + Distance(a[1..], b)
    ensures b != "" ==> Distance(a, b) <= 1 + Distance(a, b[1..])
    ensures a != "" && b != "" ==> Distance(a, b) <= StepCost(Replace(a[0], b[0])) + Distance(a[1..], b[1..])
  {
    DropOne(a, b);
  }

  lemma {:induction false} NoCheaperScript(script: Script, a: string, b: string)
    requires Edits(script, a, b)
    ensures Distance(a, b) <= Cost(script)
    decreases |script|
  {
    if script != [] {
      var rest := script[1..];
      NoCheaperScript(rest, Source(rest), Target(rest));
      StepBound(a, b);
      assert if script[0].Insert? then a == Source(rest) else a[0] == script[0].from && a[1..] == Source(rest);
      assert if script[0].Delete? then b == Target(rest) else b[0] == script[0].to && b[1..] == Target(rest);
    }
  }

  /** The distance is the cost of a cheapest edit script between the two strings. */
  lemma DistanceIsOptimum(a: string, b: string)
    ensures exists script :: Edits(script, a, b) && Cost(script) == Distance(a, b)
    ensures forall script :: Edits(script, a, b) ==> Distance(a, b) <= Cost(script)
  {
    var script := CheapestScript(a, b);
    forall script | Edits(script, a, b) ensures Distance(a, b) <= Cost(script) {
      NoCheaperScript(script, a, b);
    }
  }

  // ---- The distance is a metric ----

  lemma {:induction false} ZeroIffEqual(a: string, b: string)
    ensures Distance(a, b) == 0 <==> a == b
    decreases |a|
  {
    if a != "" && b != "" {
      ZeroIffEqual(a[1..], b[1..]);
      assert a == [a[0]] + a[1..] && b == [b[0]] + b[1..];
    }
  }

  lemma {:induction false} Symmetric(a: string, b: string)
    ensures Distance(a, b) == Distance(b, a)
    decreases |a| + |b|
  {
    if a != "" && b != "" {
      Symmetric(a[1..], b[1..]);
      Symmetric(a, b[1..]);
      Symmetric(a[1..], b);
    }
  }

  lemma {:induction false} Bounds(a: string, b: string)
    ensures Distance(a, b) >= if |a| >= |b| then |a| - |b| else |b| - |a|
    ensures Distance(a, b) <= if |a| >= |b| then |a| else |b|
    decreases |a| + |b|
  {
    if a != "" && b != "" {
      Bounds(a[1..], b[1..]);
      Bounds(a, b[1..]);
      Bounds(a[1..], b);
    }
  }

  /** Two scripts that meet in the middle compose to one that costs no more than both together. */
  lemma {:induction false} Compose(first: Script, second: Script) returns (script: Script)
    requires Target(first) == Source(second)
    ensures Edits(script, Source(first), Target(second))
    ensures Cost(script) <= Cost(first) + Cost(second)
    decreases |first| + |second|
  {
    if first != [] && first[0].Delete? {
      var rest := Compose(first[1..], second);
      ScriptHead(first[0], rest);
      script := [first[0]] + rest;
    } else if second != [] && second[0].Insert? {
      var rest := Compose(first, second[1..]);
      ScriptHead(second[0], rest);
      script := [second[0]] + rest;
    } else if first == [] || second == [] {
      script := [];
    } else {
      assert Target(first) == [first[0].to] + Target(first[1..]);
      assert Source(second) == [second[0].from] + Source(second[1..]);
      assert Target(first)[1..] == Target(first[1..]) && Source(second)[1..] == Source(second[1..]);
      script := ComposeMiddle(first, second);
    }
  }

  lemma {:induction false} ComposeMiddle(first: Script, second: Script) returns (script: Script)
    requires first != [] && second != [] && !first[0].Delete? && !second[0].Insert?
    requires first[0].to == second[0].from && Target(first[1..]) == Source(second[1..])
    ensures Edits(script, Source(first), Target(second))
    ensures Cost(script) <= Cost(first) + Cost(second)
    decreases |first| + |second|, 0
  {
    var rest := Compose(first[1..], second[1..]);
    if first[0].Insert? && second[0].Delete? {
      script := rest;
    } else {
      var edit :=
        if first[0].Insert? then Insert(second[0].to)
        else if second[0].Delete? then Delete(first[0].from)
        else Replace(first[0].from, second[0].to);
      ScriptHead(edit, rest);
      script := [edit] + rest;
    }
  }

  lemma {:induction false} Triangle(a: string, b: string, c: string)
    ensures Distance(a, c) <= Distance(a, b) + Distance(b, c)
  {
    var first := CheapestScript(a, b);
    var second := CheapestScript(b, c);
    var script := Compose(first, second);
    NoCheaperScript(script, a, c);
  }

  // ---- The memoised computation ----

  const NPOS := 0xFFFF_FFFF_FFFF_FFFF

  /** A string short enough that its length is a 63-bit number. */
  predicate Sized(s: string) {
    |s| <= 0x7FFF_FFFF_FFFF_FFFF
  }

  /** Every cell of the table is the sentinel or the distance of the two suffixes it stands for. */
  ghost predicate MemoHolds(a: string, b: string, memo: array2<nat>)
    reads memo
  {
    && memo.Length0 == |a| + 1 && memo.Length1 == |b| + 1
    && forall i, j :: 0 <= i <= |a| && 0 <= j <= |b| ==>
                        memo[i, j] == NPOS || memo[i, j] == Distance(a[i..], b[j..])
  }

  method Dp(a: string, b: string, memo: array2<nat>, i: nat, j: nat) returns (d: nat)
    requires Sized(a) && Sized(b) && i <= |a| && j <= |b|
    requires MemoHolds(a, b, memo)
    modifies memo
    ensures MemoHolds(a, b, memo)
    ensures d == Distance(a[i..], b[j..])
    decreases |a| - i + |b| - j
  {
    Bounds(a[i..], b[j..]);
    if memo[i, j] != NPOS {
      return memo[i, j];
    }
    if i == |a| {
      d := |b| - j;
    } else if j == |b| {
      d := |a| - i;
    } else {
      assert a[i..][1..] == a[i + 1..] && b[j..][1..] == b[j + 1..];
      if a[i] == b[j] {
        d := Dp(a, b, memo, i + 1, j + 1);
      } else {
        var x := Dp(a, b, memo, i, j + 1);
        var y := Dp(a, b, memo, i + 1, j);
        var z := Dp(a, b, memo, i + 1, j + 1);
        d := 1 + Min3(x, y, z);
      }
    }
    memo[i, j] := d;
  }

  method Levenstein(a: string, b: string) returns (d: nat)
    requires Sized(a) && Sized(b)
    ensures d == Distance(a, b)
    ensures exists script :: Edits(script, a, b) && Cost(script) == d
    ensures forall script :: Edits(script, a, b) ==> d <= Cost(script)
  {
    DistanceIsOptimum(a, b);
    var memo := new nat[|a| + 1, |b| + 1]((i, j) => NPOS);
    assert a[0..] == a && b[0..] == b;
    d := Dp(a, b, memo, 0, 0);
  }

  // ---- The search ----

  /** An identifier: its lower-case form, which is the key, and its proper spelling. */
  datatype Identifier = Identifier(key: string, spelling: string)

  function ToLower(c: char): char {
    if 'A' <= c <= 'Z' then (c as int + 32) as char else c
  }

  function LowerCase(s: string): (r: string)
    ensures |r| == |s|
  {
    seq(|s|, i requires 0 <= i < |s| => ToLower(s[i]))
  }

  predicate IsCapital(c: char) {
    'A' <= c <= 'Z'
  }

  /** The two characters are the same, or one is the capital of the other. */
  predicate CaseVariants(c: char, d: char) {
    || c == d
    || (IsCapital(c) && d as int == c as int + 32)
    || (IsCapital(d) && c as int == d as int + 32)
  }

  /** The two strings differ at most in the case of their letters. */
  predicate SameButCase(a: string, b: string) {
    |a| == |b| && forall k :: 0 <= k < |a| ==> CaseVariants(a[k], b[k])
  }

  /** Two strings have the same lower-case form exactly when they differ at most in the case of their letters, and that
      form holds no capital. */
  lemma LowerCaseIff(a: string, b: string)
    ensures LowerCase(a) == LowerCase(b) <==> SameButCase(a, b)
    ensures forall k :: 0 <= k < |a| ==> !IsCapital(LowerCase(a)[k])
  {
    if |a| == |b| {
      if SameButCase(a, b) {
        assert forall k :: 0 <= k < |a| ==> CaseVariants(a[k], b[k]) && ToLower(a[k]) == ToLower(b[k]);
      } else {
        var k :| 0 <= k < |a| && !CaseVariants(a[k], b[k]);
        assert LowerCase(a)[k] != LowerCase(b)[k];
      }
    }
  }

  lemma NoCapitalsKept(key: string, query: string)
    requires forall k :: 0 <= k < |key| ==> !IsCapital(key[k])
    ensures key == LowerCase(query) <==> SameButCase(key, query)
  {
    LowerCaseIff(key, query);
    assert LowerCase(key) == key;
  }

  /** The keys of the table hold no capital. */
  predicate LowerKeys(table: seq<Identifier>) {
    forall i, k :: 0 <= i < |table| && 0 <= k < |table[i].key| ==> !IsCapital(table[i].key[k])
  }

  /** The table is walked in the iteration order of the hash map, whatever that is; no two keys are equal. */
  predicate DistinctKeys(table: seq<Identifier>) {
    forall i, j :: 0 <= i < j < |table| ==> table[i].key != table[j].key
  }

  /** The index of a nearest identifier, the first one in the order of the walk. */
  ghost predicate IsNearest(table: seq<Identifier>, query: string, k: nat) {
    && k < |table|
    && (forall i :: 0 <= i < |table| ==> Distance(table[k].key, query) <= Distance(table[i].key, query))
    && (forall i :: 0 <= i < k ==> Distance(table[k].key, query) < Distance(table[i].key, query))
  }

  method FindClosestSPDXLicense(table: seq<Identifier>, query: string) returns (mini: string)
    requires table != [] && Sized(query) && forall i :: 0 <= i < |table| ==> Sized(table[i].key)
    ensures exists k: nat :: IsNearest(table, LowerCase(query), k) && mini == table[k].spelling
    ensures LowerKeys(table) && DistinctKeys(table) ==>
              forall i :: 0 <= i < |table| && SameButCase(table[i].key, query) ==> mini == table[i].spelling
  {
    var lower := LowerCase(query);
    var minv := NPOS;
    mini := "";
    ghost var k := 0;
    for n := 0 to |table|
      invariant n == 0 ==> minv == NPOS
      invariant n > 0 ==> k < n && minv == Distance(table[k].key, lower) && mini == table[k].spelling
      invariant n > 0 ==> forall i :: 0 <= i < n ==> minv <= Distance(table[i].key, lower)
      invariant n > 0 ==> forall i :: 0 <= i < k ==> minv < Distance(table[i].key, lower)
    {
      var dist := Levenstein(table[n].key, lower);
      Bounds(table[n].key, lower);
      if dist < minv {
        minv := dist;
        mini := table[n].spelling;
        k := n;
      }
    }
    assert IsNearest(table, lower, k);
    NearestIsExactMatch(table, query, k);
  }

  predicate IsExactSPDXLicenseMatch(table: seq<Identifier>, query: string) {
    exists i :: 0 <= i < |table| && table[i].key == LowerCase(query)
  }

  /** An identifier found nearest is the one asked for, whatever the case of its letters, exactly when there is one. */
  lemma NearestIsExactMatch(table: seq<Identifier>, query: string, k: nat)
    requires IsNearest(table, LowerCase(query), k)
    ensures IsExactSPDXLicenseMatch(table, query) <==> table[k].key == LowerCase(query)
    ensures DistinctKeys(table) ==>
              forall i :: 0 <= i < |table| && table[i].key == LowerCase(query) ==> i == k
    ensures LowerKeys(table) ==>
              forall i :: 0 <= i < |table| ==> (table[i].key == LowerCase(query) <==> SameButCase(table[i].key, query))
  {
    var lower := LowerCase(query);
    ZeroIffEqual(table[k].key, lower);
    forall i | 0 <= i < |table| ensures Distance(table[i].key, lower) == 0 <==> table[i].key == lower {
      ZeroIffEqual(table[i].key, lower);
    }
    if LowerKeys(table) {
      forall i | 0 <= i < |table| ensures table[i].key == lower <==> SameButCase(table[i].key, query) {
        NoCapitalsKept(table[i].key, query);
      }
    }
  }

  /** A query matches exactly when some key differs from it at most in the case of letters. */
  lemma MatchIff(table: seq<Identifier>, query: string)
    requires LowerKeys(table)
    ensures IsExactSPDXLicenseMatch(table, query) <==>
            exists i :: 0 <= i < |table| && SameButCase(table[i].key, query)
  {
    forall i | 0 <= i < |table| ensures table[i].key == LowerCase(query) <==> SameButCase(table[i].key, query) {
      NoCapitalsKept(table[i].key, query);
    }
  }
}
