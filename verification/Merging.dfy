/** Sequences that are two others merged: both keep their order, and nothing is added or lost. */
module Merging {

  predicate Merges<T(==)>(whole: seq<T>, left: seq<T>, right: seq<T>)
    decreases |whole|
  {
    if whole == [] then left == [] && right == []
    else
      var n := |whole| - 1;
      || (left != [] && left[|left| - 1] == whole[n] && Merges(whole[..n], left[..|left| - 1], right))
      || (right != [] && right[|right| - 1] == whole[n] && Merges(whole[..n], left, right[..|right| - 1]))
  }

  lemma MergesLeft<T>(whole: seq<T>, left: seq<T>, right: seq<T>, x: T)
    requires Merges(whole, left, right)
    ensures Merges(whole + [x], left + [x], right)
  {
    assert (whole + [x])[..|whole|] == whole && (left + [x])[..|left|] == left;
  }

  lemma MergesRight<T>(whole: seq<T>, left: seq<T>, right: seq<T>, x: T)
    requires Merges(whole, left, right)
    ensures Merges(whole + [x], left, right + [x])
  {
    assert (whole + [x])[..|whole|] == whole && (right + [x])[..|right|] == right;
  }

  /** Positions in order, where the elements of a sequence are in the whole. */
  predicate Embeds<T(==)>(at: seq<nat>, part: seq<T>, whole: seq<T>) {
    && |at| == |part|
    && (forall j, k :: 0 <= j < k < |at| ==> at[j] < at[k])
    && (forall k :: 0 <= k < |at| ==> at[k] < |whole| && whole[at[k]] == part[k])
  }

  lemma EmbedsLonger<T>(at: seq<nat>, part: seq<T>, whole: seq<T>, x: T)
    requires Embeds(at, part, whole)
    ensures Embeds(at, part, whole + [x]) && Embeds(at + [|whole|], part + [x], whole + [x])
    ensures |whole| !in at
  {
  }

  /** Each of the first n positions is in exactly one of two lists. */
  ghost predicate Split(lefts: seq<nat>, rights: seq<nat>, n: nat) {
    forall k: nat :: k < n ==> (k in lefts <==> k !in rights)
  }

  lemma SplitLonger(lefts: seq<nat>, rights: seq<nat>, n: nat)
    requires Split(lefts, rights, n)
    ensures n !in rights ==> Split(lefts + [n], rights, n + 1)
    ensures n !in lefts ==> Split(lefts, rights + [n], n + 1)
  {
  }

  /** Where the elements of the two sequences are in the whole, which has nothing else. */
  lemma {:induction false} Embedding<T>(whole: seq<T>, left: seq<T>, right: seq<T>)
    returns (lefts: seq<nat>, rights: seq<nat>)
    requires Merges(whole, left, right)
    ensures Embeds(lefts, left, whole) && Embeds(rights, right, whole) && Split(lefts, rights, |whole|)
    decreases |whole|
  {
    lefts, rights := [], [];
    if whole != [] {
      hide Embeds, Split;
      var n := |whole| - 1;
      var last, before := whole[n], whole[..n];
      if left != [] && left[|left| - 1] == last && Merges(before, left[..|left| - 1], right) {
        lefts, rights := Embedding(before, left[..|left| - 1], right);
        EmbedsLonger(lefts, left[..|left| - 1], before, last);
        EmbedsLonger(rights, right, before, last);
        SplitLonger(lefts, rights, n);
        lefts := lefts + [n];
      } else {
        lefts, rights := Embedding(before, left, right[..|right| - 1]);
        EmbedsLonger(lefts, left, before, last);
        EmbedsLonger(rights, right[..|right| - 1], before, last);
        SplitLonger(lefts, rights, n);
        rights := rights + [n];
      }
      assert before + [last] == whole;
    }
  }

  function Count<T>(p: T -> bool, s: seq<T>): nat {
    if s == [] then 0
    else Count(p, s[..|s| - 1]) + if p(s[|s| - 1]) then 1 else 0
  }

  lemma CountAppend<T>(p: T -> bool, s: seq<T>, x: T)
    ensures Count(p, s + [x]) == Count(p, s) + if p(x) then 1 else 0
  {
    assert (s + [x])[..|s|] == s;
  }

  /** Elements with a property are counted once, on the left or on the right. */
  lemma {:induction false} MergedCount<T>(p: T -> bool, whole: seq<T>, left: seq<T>, right: seq<T>)
    requires Merges(whole, left, right)
    ensures Count(p, whole) == Count(p, left) + Count(p, right)
    ensures |whole| == |left| + |right|
    decreases |whole|
  {
    if whole != [] {
      var n := |whole| - 1;
      if left != [] && left[|left| - 1] == whole[n] && Merges(whole[..n], left[..|left| - 1], right) {
        MergedCount(p, whole[..n], left[..|left| - 1], right);
      } else {
        MergedCount(p, whole[..n], left, right[..|right| - 1]);
      }
    }
  }
}
