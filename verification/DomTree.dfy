// The tree of dominator pointers that tb_get_dominators (src/tb/tb_analysis.c) keeps in
// `doms` while it runs, and what one pointer update does to it.

module DomTree {
  import opened Finite
  import opened Cfg
  import opened Postorder

  // A pointer of -1 means "not calculated yet".
  type Doms = seq<int>

  ghost predicate Node(o: seq<Label>, D: Doms, b: Label)
  {
    b in o && b < |D| && D[b] != -1
  }

  // Pointers of calculated blocks lead to calculated blocks that come later in postorder.
  ghost predicate Forest(o: seq<Label>, D: Doms)
  {
    && |o| > 0 && o[|o| - 1] == 0 && Distinct(o)
    && |D| > 0 && D[0] == 0
    && (forall b :: b in o ==> b < |D|)
    && forall b: Label :: Node(o, D, b) && b != 0 ==> PointsUp(o, D, b)
  }

  ghost predicate PointsUp(o: seq<Label>, D: Doms, b: Label)
    requires b < |D|
  {
    D[b] >= 0 && Node(o, D, D[b]) && Pos(o, b) < Pos(o, D[b])
  }

  // x is b or lies on the chain of pointers from b to the entry.
  ghost predicate Anc(o: seq<Label>, D: Doms, x: Label, b: Label)
    requires Forest(o, D) && Node(o, D, b)
    decreases |o| - Pos(o, b)
  {
    x == b || (b != 0 && Anc(o, D, x, D[b]))
  }

  lemma {:induction false} AncNode(o: seq<Label>, D: Doms, x: Label, b: Label)
    requires Forest(o, D) && Node(o, D, b) && Anc(o, D, x, b)
    ensures Node(o, D, x)
    ensures x == b || Pos(o, b) < Pos(o, x)
    decreases |o| - Pos(o, b)
  {
    if x != b { AncNode(o, D, x, D[b]); }
  }

  lemma {:induction false} AncEntry(o: seq<Label>, D: Doms, b: Label)
    requires Forest(o, D) && Node(o, D, b)
    ensures Anc(o, D, 0, b)
    decreases |o| - Pos(o, b)
  {
    if b != 0 { AncEntry(o, D, D[b]); }
  }

  lemma {:induction false} AncTrans(o: seq<Label>, D: Doms, x: Label, y: Label, b: Label)
    requires Forest(o, D) && Node(o, D, b) && Node(o, D, y)
    requires Anc(o, D, x, y) && Anc(o, D, y, b)
    ensures Anc(o, D, x, b)
    decreases |o| - Pos(o, b)
  {
    if y != b { AncTrans(o, D, x, y, D[b]); }
  }

  lemma {:induction false} AncTotal(o: seq<Label>, D: Doms, x: Label, y: Label, b: Label)
    requires Forest(o, D) && Node(o, D, b) && Node(o, D, x) && Node(o, D, y)
    requires Anc(o, D, x, b) && Anc(o, D, y, b)
    ensures Anc(o, D, x, y) || Anc(o, D, y, x)
    decreases |o| - Pos(o, b)
  {
    if x != b && y != b { AncTotal(o, D, x, y, D[b]); }
  }

  // ----- One pointer moves: D becomes D[b := m] -----

  ghost predicate Moved(o: seq<Label>, D: Doms, E: Doms, b: Label, m: Label)
  {
    && Forest(o, D) && b in o && b != 0
    && Node(o, D, m) && Pos(o, b) < Pos(o, m)
    && E == D[b := m as int]
    && (Node(o, D, b) ==> PointsUp(o, D, b) && Anc(o, D, m, D[b]))
  }

  lemma MovedForest(o: seq<Label>, D: Doms, E: Doms, b: Label, m: Label)
    requires Moved(o, D, E, b, m)
    ensures Forest(o, E)
    ensures forall c: Label :: Node(o, D, c) ==> Node(o, E, c)
    ensures forall c: Label :: Node(o, E, c) ==> Node(o, D, c) || c == b
  {
    forall c: Label | Node(o, E, c) && c != 0 ensures PointsUp(o, E, c) {
      if c != b {
        assert Node(o, D, c) && PointsUp(o, D, c);
      }
    }
  }

  // A chain keeps its part up to y when y is not above b.
  lemma {:induction false} AncStays(o: seq<Label>, D: Doms, E: Doms, b: Label, m: Label, y: Label, c: Label)
    requires Moved(o, D, E, b, m) && Forest(o, E) && Node(o, E, c)
    requires Node(o, D, c) && Anc(o, D, y, c) && Pos(o, y) <= Pos(o, b)
    ensures Anc(o, E, y, c)
    decreases |o| - Pos(o, c)
  {
    if y != c {
      AncNode(o, D, y, c);
      AncStays(o, D, E, b, m, y, D[c]);
    }
  }

  // A chain that does not pass through b stays as it is.
  lemma {:induction false} AncKeep(o: seq<Label>, D: Doms, E: Doms, b: Label, m: Label, y: Label, c: Label)
    requires Moved(o, D, E, b, m) && Forest(o, E) && Node(o, E, c)
    requires Node(o, D, c) && !Anc(o, D, b, c)
    ensures Anc(o, E, y, c) <==> Anc(o, D, y, c)
    decreases |o| - Pos(o, c)
  {
    if c != 0 {
      AncKeep(o, D, E, b, m, y, D[c]);
    }
  }

  // Blocks later in postorder than b do not feel the move.
  lemma AncHigh(o: seq<Label>, D: Doms, E: Doms, b: Label, m: Label, y: Label, c: Label)
    requires Moved(o, D, E, b, m) && Forest(o, E) && Node(o, E, c)
    requires Node(o, D, c) && Pos(o, b) < Pos(o, c)
    ensures Anc(o, E, y, c) <==> Anc(o, D, y, c)
  {
    if Anc(o, D, b, c) { AncNode(o, D, b, c); }
    AncKeep(o, D, E, b, m, y, c);
  }

  // Chains only lose blocks.
  lemma {:induction false} AncShrinks(o: seq<Label>, D: Doms, E: Doms, b: Label, m: Label, y: Label, c: Label)
    requires Moved(o, D, E, b, m) && Forest(o, E) && Node(o, E, c)
    requires Node(o, D, c) && Anc(o, E, y, c)
    ensures Anc(o, D, y, c)
    decreases |o| - Pos(o, c)
  {
    if y != c {
      if c == b {
        AncHigh(o, D, E, b, m, y, m);
        AncTrans(o, D, y, m, D[b]);
      } else {
        AncShrinks(o, D, E, b, m, y, D[c]);
      }
    }
  }

  // ----- Closest common ancestor of the calculated blocks of a list -----

  ghost predicate Common(o: seq<Label>, D: Doms, ps: seq<Label>, y: Label)
    requires Forest(o, D)
  {
    forall p: Label :: p in ps && Node(o, D, p) ==> Anc(o, D, y, p)
  }

  ghost predicate Meet(o: seq<Label>, D: Doms, ps: seq<Label>, m: Label)
    requires Forest(o, D)
  {
    && Node(o, D, m)
    && Common(o, D, ps, m)
    && forall y: Label :: Common(o, D, ps, y) ==> Anc(o, D, y, m)
  }
}
