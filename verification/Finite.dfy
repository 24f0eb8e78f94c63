// Finite sets of numbers, and lists without repetition.

module Finite {
  ghost predicate Distinct(s: seq<nat>)
  {
    forall i, j :: 0 <= i < j < |s| ==> s[i] != s[j]
  }

  // The numbers below n.
  ghost function Range(n: nat): (s: set<nat>)
    ensures forall b: nat :: b in s <==> b < n
    ensures |s| == n
  {
    if n == 0 then {} else Range(n - 1) + {n - 1}
  }

  ghost function Elems(s: seq<nat>): (r: set<nat>)
    ensures forall x :: x in r <==> x in s
  {
    set x | x in s
  }

  lemma {:induction false} DistinctBounded(s: seq<nat>, bound: set<nat>)
    requires Distinct(s) && forall b :: b in s ==> b in bound
    ensures |s| <= |bound|
  {
    if s != [] {
      var last := s[|s| - 1];
      DistinctBounded(s[..|s| - 1], bound - {last});
    }
  }

  lemma {:induction false} DistinctSize(s: seq<nat>)
    requires Distinct(s)
    ensures |Elems(s)| == |s|
  {
    if s != [] {
      var t := s[..|s| - 1];
      DistinctSize(t);
      assert Elems(s) == Elems(t) + {s[|s| - 1]};
    }
  }

  lemma {:induction false} SubsetSize(s: set<nat>, t: set<nat>)
    requires s <= t
    ensures |s| <= |t|
  {
    if s != {} {
      var x :| x in s;
      SubsetSize(s - {x}, t - {x});
    }
  }

  lemma SmallerSet(s: set<nat>, t: set<nat>, b: nat)
    requires s <= t && b in t && b !in s
    ensures |s| < |t|
  {
    assert s <= t - {b};
    SubsetSize(s, t - {b});
  }

  // A subset of the same size is the whole set.
  lemma {:induction false} SameSizeSame(s: set<nat>, t: set<nat>)
    requires s <= t && |s| == |t|
    ensures s == t
  {
    if s != {} {
      var x :| x in s;
      SameSizeSame(s - {x}, t - {x});
    }
  }

  // A list of different numbers below n that misses none has n entries.
  lemma OrderSize(s: seq<nat>, n: nat)
    requires Distinct(s) && (forall i :: 0 <= i < |s| ==> s[i] < n) && forall t: nat :: t < n ==> t in s
    ensures |s| == n
  {
    DistinctSize(s);
    assert Elems(s) == Range(n);
  }
}
