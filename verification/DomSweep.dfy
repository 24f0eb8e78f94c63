// What every step of the dominator fixpoint (src/tb/tb_analysis.c:227-255) keeps, and why
// a sweep without changes has found the immediate dominators.

module DomSweep {
  import opened Cfg
  import opened Predecessors
  import opened Postorder
  import opened DomTree

  // The first predecessor of b comes later than b in the postorder.
  ghost predicate FirstPredLater(preds: seq<seq<Label>>, o: seq<Label>, b: Label)
  {
    b < |preds| && preds[b] != [] && Pos(o, b) < Pos(o, preds[b][0])
  }

  // d leads to b along blocks that all come earlier in postorder than d.
  ghost predicate LeadsBelow(g: Graph, o: seq<Label>, d: Label, b: Label)
  {
    exists q :: PathBelow(g, o, q, d, b)
  }

  ghost predicate PathBelow(g: Graph, o: seq<Label>, q: seq<Label>, d: Label, b: Label)
  {
    && IsPath(g, q) && q[0] == d && q[|q| - 1] == b
    && forall i :: 1 <= i < |q| ==> Pos(o, q[i]) < Pos(o, d)
  }

  // Strict dominators of b dominate the block its pointer names.
  ghost predicate Sound(g: Graph, D: Doms, b: Label)
    requires b < |D| && D[b] >= 0
  {
    forall x: Label :: Sdom(g, x, b) ==> Dom(g, x, D[b])
  }

  // What the calculated predecessors of b share is on the chain of b's pointer.
  ghost predicate Closed(o: seq<Label>, preds: seq<seq<Label>>, D: Doms, b: Label)
    requires Forest(o, D) && Node(o, D, b) && b != 0 && b < |preds|
  {
    forall y: Label :: Common(o, D, preds[b], y) ==> Anc(o, D, y, D[b])
  }

  ghost predicate Known(g: Graph, preds: seq<seq<Label>>, o: seq<Label>)
  {
    IsPredTable(g, preds) && IsPostorder(g, o)
  }

  ghost predicate NodeOk(g: Graph, preds: seq<seq<Label>>, o: seq<Label>, D: Doms, b: Label)
    requires Known(g, preds, o) && Forest(o, D) && Node(o, D, b) && b != 0
  {
    && FirstPredLater(preds, o, b)
    && Node(o, D, preds[b][0])
    && Sound(g, D, b)
    && LeadsBelow(g, o, D[b], b)
    && Closed(o, preds, D, b)
  }

  // Whether the pointer of c still fits the chain of its first predecessor depends on how
  // far the sweep has come: it has treated the positions from k on.
  ghost predicate Fits(preds: seq<seq<Label>>, o: seq<Label>, D: Doms, k: int, c: Label)
    requires Forest(o, D) && Node(o, D, c) && c != 0 && PointsUp(o, D, c)
    requires c < |preds| && preds[c] != [] && Node(o, D, preds[c][0])
  {
    Pos(o, c) >= k || Pos(o, D[c]) < k ==> Anc(o, D, D[c], preds[c][0])
  }

  ghost predicate NodeInv(g: Graph, preds: seq<seq<Label>>, o: seq<Label>, D: Doms, k: int, c: Label)
    requires Known(g, preds, o) && Forest(o, D) && Node(o, D, c) && c != 0
  {
    PointsUp(o, D, c) && NodeOk(g, preds, o, D, c) && Fits(preds, o, D, k, c)
  }

  // The invariant of the sweep that has treated the positions from k on.
  ghost predicate Inv(g: Graph, preds: seq<seq<Label>>, o: seq<Label>, D: Doms, k: int)
    requires Known(g, preds, o)
  {
    && |D| == |g|
    && Forest(o, D)
    && (forall c: Label :: c < |D| && D[c] != -1 ==> c in o)
    && (forall c: Label :: Node(o, D, c) && c != 0 ==> NodeInv(g, preds, o, D, k, c))
  }

  lemma InitInv(g: Graph, preds: seq<seq<Label>>, o: seq<Label>, D: Doms)
    requires Known(g, preds, o) && |D| == |g| && D[0] == 0
    requires forall c :: 1 <= c < |D| ==> D[c] == -1
    ensures Inv(g, preds, o, D, |o| - 1)
  {
  }

  // After a sweep the invariant holds for the start of the next one.
  lemma NextSweep(g: Graph, preds: seq<seq<Label>>, o: seq<Label>, D: Doms)
    requires Known(g, preds, o) && Inv(g, preds, o, D, 0)
    ensures Inv(g, preds, o, D, |o| - 1)
  {
  }

  // ----- Dominators stay on the chains -----

  ghost predicate AllLead(g: Graph, o: seq<Label>, D: Doms)
    requires Forest(o, D)
  {
    forall c: Label :: Node(o, D, c) && c != 0 ==> PointsUp(o, D, c) && LeadsBelow(g, o, D[c], c)
  }

  lemma SelfBelow(g: Graph, o: seq<Label>, b: Label)
    requires b < |g|
    ensures LeadsBelow(g, o, b, b)
  {
    assert PathBelow(g, o, [b], b, b);
  }

  lemma {:induction false} AncPath(g: Graph, o: seq<Label>, D: Doms, d: Label, b: Label)
    requires Forest(o, D) && AllLead(g, o, D) && |D| == |g|
    requires Node(o, D, b) && Anc(o, D, d, b)
    ensures LeadsBelow(g, o, d, b)
    decreases |o| - Pos(o, b)
  {
    hide LeadsBelow;
    if d == b {
      SelfBelow(g, o, b);
    } else {
      AncPath(g, o, D, d, D[b]);
      AncNode(o, D, d, D[b]);
      JoinBelow(g, o, d, D[b], b);
    }
  }

  lemma InvLeads(g: Graph, preds: seq<seq<Label>>, o: seq<Label>, D: Doms, k: int)
    requires Known(g, preds, o) && Inv(g, preds, o, D, k)
    ensures AllLead(g, o, D)
  {
    forall c: Label | Node(o, D, c) && c != 0 ensures LeadsBelow(g, o, D[c], c) {
      assert NodeInv(g, preds, o, D, k, c);
    }
  }

  lemma JoinBelow(g: Graph, o: seq<Label>, d: Label, e: Label, b: Label)
    requires LeadsBelow(g, o, d, e) && LeadsBelow(g, o, e, b) && Pos(o, e) <= Pos(o, d)
    ensures LeadsBelow(g, o, d, b)
  {
    var q1 :| PathBelow(g, o, q1, d, e);
    var q2 :| PathBelow(g, o, q2, e, b);
    var q := q1 + q2[1..];
    JoinIsPath(g, q1, q2);
    forall i | 1 <= i < |q| ensures Pos(o, q[i]) < Pos(o, d) {
      if i >= |q1| {
        assert q[i] == q2[i - |q1| + 1];
      }
    }
    assert PathBelow(g, o, q, d, b);
  }

  // A block later in postorder than d that dominates b dominates d as well.
  lemma DomLifts(g: Graph, o: seq<Label>, x: Label, d: Label, b: Label)
    requires LeadsBelow(g, o, d, b) && Dom(g, x, b) && Pos(o, d) < Pos(o, x)
    ensures Dom(g, x, d)
  {
    var q :| PathBelow(g, o, q, d, b);
    assert x !in q;
    forall p | PathTo(g, p, d) ensures x in p {
      JoinPaths(g, p, q, d);
      assert x in p + q[1..];
    }
  }

  lemma {:induction false} DomIsAnc(g: Graph, preds: seq<seq<Label>>, o: seq<Label>, D: Doms, k: int, x: Label,
                                    b: Label)
    requires Known(g, preds, o) && Inv(g, preds, o, D, k)
    requires Node(o, D, b) && Dom(g, x, b)
    ensures Anc(o, D, x, b)
    decreases |o| - Pos(o, b)
  {
    if b == 0 {
      DomEntry(g, x);
    } else if x != b {
      assert NodeInv(g, preds, o, D, k, b);
      DomIsAnc(g, preds, o, D, k, x, D[b]);
    }
  }

  // ----- The step at position i: the pointer of o[i] becomes m -----

  ghost predicate Step(g: Graph, preds: seq<seq<Label>>, o: seq<Label>, D: Doms, i: nat, b: Label, m: Label)
    requires Known(g, preds, o)
  {
    && i < |o| - 1 && b == o[i]
    && Inv(g, preds, o, D, i + 1)
    && FirstPredLater(preds, o, b) && Node(o, D, preds[b][0])
    && Meet(o, D, preds[b], m)
  }

  lemma StepMoves(g: Graph, preds: seq<seq<Label>>, o: seq<Label>, D: Doms, i: nat, b: Label, m: Label)
    requires Known(g, preds, o) && Step(g, preds, o, D, i, b, m)
    ensures b != 0 && Pos(o, b) == i && Anc(o, D, m, preds[b][0])
    ensures Moved(o, D, D[b := m as int], b, m)
  {
    PosAt(o, i);
    PosAt(o, |o| - 1);
    AncNode(o, D, m, preds[b][0]);
    if Node(o, D, b) {
      assert NodeInv(g, preds, o, D, i + 1, b);
    }
  }

  lemma StepLeads(g: Graph, preds: seq<seq<Label>>, o: seq<Label>, D: Doms, i: nat, b: Label, m: Label)
    requires Known(g, preds, o) && Step(g, preds, o, D, i, b, m)
    ensures LeadsBelow(g, o, m, b)
  {
    StepMoves(g, preds, o, D, i, b, m);
    var p := preds[b][0];
    AncNode(o, D, m, p);
    InvLeads(g, preds, o, D, i + 1);
    AncPath(g, o, D, m, p);
    EdgeBelow(g, o, m, p, b);
  }

  lemma EdgeBelow(g: Graph, o: seq<Label>, m: Label, p: Label, b: Label)
    requires LeadsBelow(g, o, m, p) && Edge(g, p, b)
    requires Pos(o, p) <= Pos(o, m) && Pos(o, b) < Pos(o, p)
    ensures LeadsBelow(g, o, m, b)
  {
    assert PathBelow(g, o, [p, b], p, b);
    JoinBelow(g, o, m, p, b);
  }

  // A strict dominator of b is an ancestor of every calculated predecessor.
  lemma SdomCommon(g: Graph, preds: seq<seq<Label>>, o: seq<Label>, D: Doms, k: int, x: Label, b: Label)
    requires Known(g, preds, o) && Inv(g, preds, o, D, k)
    requires 0 < b < |g| && Sdom(g, x, b)
    ensures Common(o, D, preds[b], x)
  {
    forall q | q in preds[b] && Node(o, D, q) ensures Anc(o, D, x, q) {
      assert Edge(g, q, b);
      SdomPred(g, x, q, b);
      DomIsAnc(g, preds, o, D, k, x, q);
    }
  }

  lemma StepSound(g: Graph, preds: seq<seq<Label>>, o: seq<Label>, D: Doms, i: nat, b: Label, m: Label, x: Label)
    requires Known(g, preds, o) && Step(g, preds, o, D, i, b, m)
    requires Sdom(g, x, b)
    ensures Dom(g, x, m)
  {
    StepMoves(g, preds, o, D, i, b, m);
    StepLeads(g, preds, o, D, i, b, m);
    SdomCommon(g, preds, o, D, i + 1, x, b);
    AncNode(o, D, x, m);
    if x != m {
      DomLifts(g, o, x, m, b);
    } else {
      assert Dom(g, m, m);
    }
  }

  // Other blocks stay closed when b's pointer moves up.
  lemma ClosedStays(g: Graph, preds: seq<seq<Label>>, o: seq<Label>, D: Doms, i: nat, b: Label, m: Label, c: Label)
    requires Known(g, preds, o) && Step(g, preds, o, D, i, b, m)
    requires Node(o, D, c) && c != 0 && c != b
    ensures Forest(o, D[b := m as int]) && Node(o, D[b := m as int], c)
    ensures Closed(o, preds, D[b := m as int], c)
  {
    var E := D[b := m as int];
    StepMoves(g, preds, o, D, i, b, m);
    MovedForest(o, D, E, b, m);
    assert NodeInv(g, preds, o, D, i + 1, c);
    var e, q := D[c], preds[c][0];
    assert PointsUp(o, D, c);
    forall y: Label | Common(o, E, preds[c], y) ensures Anc(o, E, y, e) {
      forall p | p in preds[c] && Node(o, D, p) ensures Anc(o, D, y, p) {
        AncShrinks(o, D, E, b, m, y, p);
      }
      assert Common(o, D, preds[c], y);
      if !Anc(o, D, b, e) {
        AncKeep(o, D, E, b, m, y, e);
      } else if Pos(o, y) <= Pos(o, b) {
        AncStays(o, D, E, b, m, y, e);
      } else {
        AncNode(o, D, b, e);
        AncTrans(o, D, b, e, q);
        AncStays(o, D, E, b, m, b, q);
        AncStays(o, D, E, b, m, b, e);
        AncNode(o, E, y, q);
        AncTotal(o, E, y, b, q);
        if Anc(o, E, b, y) { AncNode(o, E, b, y); }
        AncTrans(o, E, y, b, e);
      }
    }
  }

  lemma ClosedAtB(g: Graph, preds: seq<seq<Label>>, o: seq<Label>, D: Doms, i: nat, b: Label, m: Label)
    requires Known(g, preds, o) && Step(g, preds, o, D, i, b, m)
    ensures Forest(o, D[b := m as int]) && Node(o, D[b := m as int], b) && b != 0
    ensures Closed(o, preds, D[b := m as int], b)
  {
    var E := D[b := m as int];
    StepMoves(g, preds, o, D, i, b, m);
    MovedForest(o, D, E, b, m);
    forall y: Label | Common(o, E, preds[b], y) ensures Anc(o, E, y, m) {
      forall p | p in preds[b] && Node(o, D, p) ensures Anc(o, D, y, p) {
        AncShrinks(o, D, E, b, m, y, p);
      }
      assert Common(o, D, preds[b], y);
      AncHigh(o, D, E, b, m, y, m);
    }
  }

  lemma StepNodes(g: Graph, preds: seq<seq<Label>>, o: seq<Label>, D: Doms, i: nat, b: Label, m: Label, c: Label)
    requires Known(g, preds, o) && Step(g, preds, o, D, i, b, m)
    requires c != 0 && (c == b || Node(o, D, c))
    ensures Forest(o, D[b := m as int]) && Node(o, D[b := m as int], c)
    ensures NodeOk(g, preds, o, D[b := m as int], c)
  {
    var E := D[b := m as int];
    StepMoves(g, preds, o, D, i, b, m);
    MovedForest(o, D, E, b, m);
    if c != b {
      assert NodeInv(g, preds, o, D, i + 1, c);
      ClosedStays(g, preds, o, D, i, b, m, c);
    } else {
      StepLeads(g, preds, o, D, i, b, m);
      ClosedAtB(g, preds, o, D, i, b, m);
      forall x: Label | Sdom(g, x, b) ensures Dom(g, x, m) {
        StepSound(g, preds, o, D, i, b, m, x);
      }
    }
  }

  lemma StepFits(g: Graph, preds: seq<seq<Label>>, o: seq<Label>, D: Doms, i: nat, b: Label, m: Label, c: Label)
    requires Known(g, preds, o) && Step(g, preds, o, D, i, b, m)
    requires c != 0 && (c == b || Node(o, D, c))
    ensures Forest(o, D[b := m as int]) && Node(o, D[b := m as int], c)
    ensures NodeInv(g, preds, o, D[b := m as int], i, c)
  {
    var E := D[b := m as int];
    StepMoves(g, preds, o, D, i, b, m);
    StepNodes(g, preds, o, D, i, b, m, c);
    if c == b {
      AncHigh(o, D, E, b, m, m, preds[b][0]);
    } else {
      assert NodeInv(g, preds, o, D, i + 1, c);
      if Pos(o, c) >= i {
        assert Pos(o, c) != i;
        AncHigh(o, D, E, b, m, D[c], preds[c][0]);
      } else if Pos(o, D[c]) < i {
        AncStays(o, D, E, b, m, D[c], preds[c][0]);
      }
    }
  }

  lemma StepShape(g: Graph, preds: seq<seq<Label>>, o: seq<Label>, D: Doms, i: nat, b: Label, m: Label)
    requires Known(g, preds, o) && Step(g, preds, o, D, i, b, m)
    ensures b != 0 && Forest(o, D[b := m as int])
    ensures forall c: Label :: Node(o, D[b := m as int], c) ==> Node(o, D, c) || c == b
  {
    StepMoves(g, preds, o, D, i, b, m);
    MovedForest(o, D, D[b := m as int], b, m);
  }


  lemma StepRange(g: Graph, preds: seq<seq<Label>>, o: seq<Label>, D: Doms, i: nat, b: Label, m: Label, c: Label)
    requires Known(g, preds, o) && Step(g, preds, o, D, i, b, m)
    requires c < |D| && D[b := m as int][c] != -1
    ensures c in o
  {
  }

  lemma StepAll(g: Graph, preds: seq<seq<Label>>, o: seq<Label>, D: Doms, i: nat, b: Label, m: Label, E: Doms)
    requires Known(g, preds, o) && Step(g, preds, o, D, i, b, m) && E == D[b := m as int] && Forest(o, E)
    requires b != 0
    requires forall c: Label :: Node(o, E, c) ==> Node(o, D, c) || c == b
    ensures forall c: Label :: Node(o, E, c) && c != 0 ==> NodeInv(g, preds, o, E, i, c)
  {
    forall c: Label | Node(o, E, c) && c != 0 ensures NodeInv(g, preds, o, E, i, c) {
      StepFits(g, preds, o, D, i, b, m, c);
    }
  }

  lemma StepInv(g: Graph, preds: seq<seq<Label>>, o: seq<Label>, D: Doms, i: nat, b: Label, m: Label)
    requires Known(g, preds, o) && Step(g, preds, o, D, i, b, m)
    ensures Inv(g, preds, o, D[b := m as int], i)
  {
    var E := D[b := m as int];
    StepShape(g, preds, o, D, i, b, m);
    StepAll(g, preds, o, D, i, b, m, E);
    forall c: Label | c < |E| && E[c] != -1 ensures c in o {
      StepRange(g, preds, o, D, i, b, m, c);
    }
  }
}
