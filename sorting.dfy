/**
  `Array.prototype.sort()` on an array of strings, with no comparator: the
  strings end up in UnitsLe order. JavaScript leaves the algorithm to the
  engine; since equal strings are indistinguishable, every correct sort gives
  the same array, which SortedUnique below proves.
 */
module Sorting {

  import opened JsStrings

  /** Every earlier string sorts no later than every later one. */
  predicate Sorted(s: seq<JsString>) {
    forall i, j :: 0 <= i < j < |s| ==> UnitsLe(s[i], s[j])
  }

  /** Puts `x` into the sorted `s` before the first element it sorts before. */
  function InsertSorted(x: JsString, s: seq<JsString>): (r: seq<JsString>)
    requires Sorted(s)
    ensures Sorted(r)
    ensures multiset(r) == multiset(s) + multiset{x}
    decreases |s|
  {
    if s == [] then [x]
    else if UnitsLe(x, s[0]) then
      (assert forall j :: 0 <= j < |s| ==> UnitsLe(x, s[j]) by {
         forall j | 0 <= j < |s| ensures UnitsLe(x, s[j]) {
           if j > 0 { UnitsLeTransitive(x, s[0], s[j]); }
         }
       }
       [x] + s)
    else
      var tail := InsertSorted(x, s[1..]);
      UnitsLeTotal(x, s[0]);
      HeadBoundsRest(s, x);
      assert s == [s[0]] + s[1..];
      ConsSorted(s[0], tail);
      [s[0]] + tail
  }

  /** The head of a sorted sequence sorts no later than the rest of it and
      than any `x` that does not sort before it. */
  lemma HeadBoundsRest(s: seq<JsString>, x: JsString)
    requires Sorted(s) && s != [] && UnitsLe(s[0], x)
    ensures forall y :: y in multiset(s[1..]) + multiset{x} ==> UnitsLe(s[0], y)
  {
    forall y | y in multiset(s[1..]) + multiset{x} ensures UnitsLe(s[0], y) {
      if y != x {
        var k :| 0 <= k < |s[1..]| && s[1..][k] == y;
        assert s[k + 1] == y;
      }
    }
  }

  /** A string that sorts no later than every element of a sorted sequence
      can be put in front of it. */
  lemma ConsSorted(h: JsString, t: seq<JsString>)
    requires Sorted(t)
    requires forall y :: y in multiset(t) ==> UnitsLe(h, y)
    ensures Sorted([h] + t)
  {
    forall i, j | 0 <= i < j < |[h] + t| ensures UnitsLe(([h] + t)[i], ([h] + t)[j]) {
      assert t[j - 1] in multiset(t);
    }
  }

  /** The sorted permutation of `s`. */
  function Sort(s: seq<JsString>): (r: seq<JsString>)
    ensures Sorted(r)
    ensures multiset(r) == multiset(s)
    decreases |s|
  {
    if s == [] then []
    else
      assert s == [s[0]] + s[1..];
      InsertSorted(s[0], Sort(s[1..]))
  }

  /** Removing the head of a sequence removes it from its multiset. */
  lemma MultisetTail(s: seq<JsString>)
    requires s != []
    ensures multiset(s[1..]) == multiset(s) - multiset{s[0]}
  {
    assert s == [s[0]] + s[1..];
  }

  /** The head of a sorted sequence is its least element. */
  lemma SortedHeadLeast(s: seq<JsString>, y: JsString)
    requires Sorted(s) && y in multiset(s)
    ensures UnitsLe(s[0], y)
  {
    var i :| 0 <= i < |s| && s[i] == y;
    if i == 0 { UnitsLeReflexive(y); }
  }

  /** Two sorted arrays holding the same strings are the same array. */
  lemma {:induction false} SortedUnique(a: seq<JsString>, b: seq<JsString>)
    requires Sorted(a) && Sorted(b)
    requires multiset(a) == multiset(b)
    ensures a == b
    decreases |a|
  {
    if a == [] {
      assert |b| == |multiset(b)| == 0;
    } else {
      assert |b| == |multiset(b)| == |multiset(a)| == |a|;
      assert b[0] in multiset(a) && a[0] in multiset(b);
      SortedHeadLeast(a, b[0]);
      SortedHeadLeast(b, a[0]);
      UnitsLeAntisymmetric(a[0], b[0]);
      MultisetTail(a);
      MultisetTail(b);
      SortedUnique(a[1..], b[1..]);
      assert a == [a[0]] + a[1..] && b == [b[0]] + b[1..];
    }
  }

  /** Sorting depends only on which strings there are, not on their order. */
  lemma SortPermutationInvariant(a: seq<JsString>, b: seq<JsString>)
    requires multiset(a) == multiset(b)
    ensures Sort(a) == Sort(b)
  {
    SortedUnique(Sort(a), Sort(b));
  }
}
