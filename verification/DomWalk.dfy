// The dominator tree as src/tb/opt/mem2reg.c and src/tb/opt/cse.h walk it: a block, then the
// blocks whose immediate dominator it is.

module DomWalk {
  import opened Finite
  import opened Cfg
  import opened DomTree
  import opened Dominators
  import opened Promotion

  // x hangs at or below b.
  ghost predicate Under(g: Graph, D: Doms, b: Label, x: Label)
    requires ExactDoms(g, D) && x < |g|
    decreases Rank(g, x)
  {
    x == b || (x > 0 && (IdomRank(g, D, x); var d: Label := D[x]; Under(g, D, b, d)))
  }

  lemma {:induction false} UnderRank(g: Graph, D: Doms, b: Label, x: Label)
    requires ExactDoms(g, D) && x < |g| && Under(g, D, b, x)
    ensures b < |g| && Rank(g, b) <= Rank(g, x)
    decreases Rank(g, x)
  {
    if x != b {
      IdomRank(g, D, x);
      UnderRank(g, D, b, D[x]);
    }
  }

  lemma {:induction false} UnderParent(g: Graph, D: Doms, c: Label, x: Label)
    requires ExactDoms(g, D) && x < |g| && 0 < c < |g| && Under(g, D, c, x)
    ensures Under(g, D, D[c], x)
    decreases Rank(g, x)
  {
    IdomRank(g, D, x);
    if x != c {
      UnderParent(g, D, c, D[x]);
    } else {
      assert Under(g, D, D[c], D[c]);
    }
  }

  // x hangs below a child of b, if it is not b itself.
  lemma {:induction false} UnderChild(g: Graph, D: Doms, b: Label, x: Label) returns (c: Label)
    requires ExactDoms(g, D) && x < |g| && Under(g, D, b, x) && x != b
    ensures 0 < c < |g| && D[c] == b && Under(g, D, c, x)
    decreases Rank(g, x)
  {
    IdomRank(g, D, x);
    if D[x] == b {
      c := x;
    } else {
      c := UnderChild(g, D, b, D[x]);
    }
  }

  lemma {:induction false} OneChild(g: Graph, D: Doms, c: Label, e: Label, x: Label)
    requires ExactDoms(g, D) && x < |g| && 0 < c < |g| && 0 < e < |g| && D[c] == D[e]
    requires Under(g, D, c, x) && Under(g, D, e, x)
    ensures c == e
    decreases Rank(g, x)
  {
    if c != e {
      IdomRank(g, D, c);
      IdomRank(g, D, e);
      if x == c {
        UnderRank(g, D, e, D[x]);
      } else if x == e {
        UnderRank(g, D, c, D[x]);
      } else {
        IdomRank(g, D, x);
        OneChild(g, D, c, e, D[x]);
      }
    }
  }

  lemma {:induction false} UnderEntry(g: Graph, D: Doms, x: Label)
    requires ExactDoms(g, D) && x < |g|
    ensures Under(g, D, 0, x)
    decreases Rank(g, x)
  {
    if x > 0 {
      IdomRank(g, D, x);
      UnderEntry(g, D, D[x]);
    }
  }

  ghost function Subtree(g: Graph, D: Doms, b: Label): (s: set<Label>)
    requires ExactDoms(g, D)
    ensures forall x: Label :: x in s <==> x < |g| && Under(g, D, b, x)
  {
    set x | x in Range(|g|) && Under(g, D, b, x)
  }

  // b and what hangs below its children before n.
  ghost function Part(g: Graph, D: Doms, b: Label, n: nat): (s: set<Label>)
    requires ExactDoms(g, D) && n <= |g|
  {
    if n <= 1 then {b}
    else Part(g, D, b, n - 1) + (if D[n - 1] == b then Subtree(g, D, n - 1) else {})
  }

  lemma PartGrows(g: Graph, D: Doms, b: Label, n: nat, done: set<Label>)
    requires ExactDoms(g, D) && 0 < n < |g|
    ensures done + Part(g, D, b, n + 1) == done + Part(g, D, b, n) + (if D[n] == b then Subtree(g, D, n) else {})
  {
  }

  lemma {:induction false} InPart(g: Graph, D: Doms, b: Label, n: nat, x: Label)
    requires ExactDoms(g, D) && n <= |g| && b < |g|
    ensures x in Part(g, D, b, n) <==>
              x == b || (x < |g| && exists c: Label :: 0 < c < n && D[c] == b && Under(g, D, c, x))
  {
    if n > 1 { InPart(g, D, b, n - 1, x); }
  }

  lemma PartInRange(g: Graph, D: Doms, b: Label, n: nat)
    requires ExactDoms(g, D) && n <= |g| && b < |g|
    ensures forall x :: x in Part(g, D, b, n) ==> x < |g|
  {
    forall x | x in Part(g, D, b, n) ensures x < |g| {
      InPart(g, D, b, n, x);
    }
  }

  lemma WholePart(g: Graph, D: Doms, b: Label)
    requires ExactDoms(g, D) && b < |g|
    ensures Part(g, D, b, |g|) == Subtree(g, D, b)
  {
    forall x: Label ensures x in Part(g, D, b, |g|) <==> x in Subtree(g, D, b) {
      InPart(g, D, b, |g|, x);
      if x in Part(g, D, b, |g|) && x != b {
        var c: Label :| 0 < c < |g| && D[c] == b && Under(g, D, c, x);
        UnderParent(g, D, c, x);
      }
      if x in Subtree(g, D, b) && x != b {
        var c := UnderChild(g, D, b, x);
      }
    }
  }

  lemma NewPart(g: Graph, D: Doms, b: Label, n: nat)
    requires ExactDoms(g, D) && 0 < n < |g| && b < |g| && D[n] == b
    ensures Subtree(g, D, n) !! Part(g, D, b, n)
    ensures Subtree(g, D, n) <= Subtree(g, D, b)
  {
    forall x: Label | x in Subtree(g, D, n) ensures x !in Part(g, D, b, n) && x in Subtree(g, D, b) {
      InPart(g, D, b, n, x);
      UnderParent(g, D, n, x);
      if x == b {
        UnderRank(g, D, n, b);
        IdomRank(g, D, n);
      }
      if c: Label :| 0 < c < n && D[c] == b && Under(g, D, c, x) {
        OneChild(g, D, c, n, x);
      }
    }
  }

  lemma RankBound(g: Graph, b: Label)
    ensures Rank(g, b) <= |g| + 1
  {
    SubsetSize((set x: Label | x in Range(|g|) && Dom(g, x, b)), Range(|g|));
  }
}
