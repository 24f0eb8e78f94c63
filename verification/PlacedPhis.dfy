// From the worklist of src/tb/opt/mem2reg.c:496-548 to the plan that the renaming follows: phis
// at the iterated dominance frontier are phis wherever definitions meet.

module PlacedPhis {
  import opened Finite
  import opened Cfg
  import opened Predecessors
  import opened Ir
  import opened Ssa
  import opened Dominators
  import opened Frontiers
  import opened Promotion
  import opened PhiInsertion
  import opened Coherency
  import opened StackWalk

  // What mem2reg asks of a function: no phis, and operands that exist.
  ghost predicate Ready(f: Function)
  {
    PhiFree(f, []) && SsaForm(f)
  }

  // ----- Where the phis of a slot go -----

  // tb_get_dominance_frontiers of the graph.
  ghost function FrontierTable(f: Function): (df: seq<seq<Label>>)
    requires Shape(f)
    ensures |df| == |f.blocks|
    ensures forall x: Label :: x < |df| ==> df[x] == FrontierList(GraphOf(f), PredTable(GraphOf(f)), x, |f.blocks|)
  {
    var preds := PredTable(GraphOf(f));
    seq(|f.blocks|, x requires 0 <= x < |f.blocks| => FrontierList(GraphOf(f), preds, x, |f.blocks|))
  }

  ghost predicate InEveryClosed(df: seq<seq<Label>>, defs: set<Label>, y: Label)
  {
    forall S: set<Label> :: FrontierClosed(df, defs, S) ==> y in S
  }

  // The iterated dominance frontier of the blocks that store to a; of no use to a slot that is
  // stored to in one block only.
  ghost function JoinBlocks(f: Function, a: Reg): (s: set<Label>)
    requires Shape(f)
    ensures forall y: Label :: y in s <==>
              |StoreBlocks(f, a)| > 1 && y < |f.blocks| && InEveryClosed(FrontierTable(f), StoreBlocks(f, a), y)
  {
    set y: Label | y in Range(|f.blocks|) && |StoreBlocks(f, a)| > 1 &&
      InEveryClosed(FrontierTable(f), StoreBlocks(f, a), y)
  }

  // The plan has a phi for every slot in each of its join blocks, and no other.
  ghost predicate PhisExact(f: Function, pl: Plan)
    requires Shape(f)
  {
    forall a: Reg, b: Label :: (a, b) in pl.phi <==> a in pl.slots && b in JoinBlocks(f, a)
  }

  ghost function SlotsOf(f: Function): (s: set<Reg>)
    requires Shape(f)
    ensures Coherent(f, s)
    ensures forall a :: a in s <==> Promotable(f, a) && exists b: Label :: b < |f.blocks| && a in f.blocks[b].body
  {
    Elems(SlotList(f))
  }

  // What the walk of the pass goes by.
  ghost function PassSetup(f: Function, pl: Plan, asWritten: bool): (s: Setup)
    requires PlanOk(f, pl)
    ensures SetupOk(s)
  {
    Setup(f, SlotList(f), pl.phi, pl.doms, asWritten)
  }

  // h is f with the phis and the renaming of this plan, which is the one of the pass, as it is
  // written or as it is meant; junk is what the source reads where there is nothing on a stack.
  ghost predicate PassResult(f: Function, asWritten: bool, junk: Reg, h: Function, pl: Plan, pre: seq<seq<Reg>>)
  {
    && PlanOk(f, pl) && pl.slots == SlotsOf(f) && PhisExact(f, pl)
    && AreEntryTops(PassSetup(f, pl, asWritten), pl.tops) && pl.lost == asWritten
    && Shape(h) && Rewritten(f, h, pl, pre) && ReadsExactly(f, h, pl, junk)
  }

  lemma PassParts(f: Function, asWritten: bool, junk: Reg, h: Function, pl: Plan, pre: seq<seq<Reg>>)
    requires PassResult(f, asWritten, junk, h, pl, pre)
    ensures PlanOk(f, pl) && Shape(f) && ExactDoms(GraphOf(f), pl.doms) && pl.slots == SlotsOf(f) && PhisExact(f, pl)
    ensures AreEntryTops(PassSetup(f, pl, asWritten), pl.tops)
    ensures pl.lost == asWritten && Shape(h) && Rewritten(f, h, pl, pre) && ReadsExactly(f, h, pl, junk)
  {
    hide ExactDoms, Shape;
  }

  // h is what the pass makes of f.
  ghost predicate Promoted(f: Function, asWritten: bool, junk: Reg, h: Function)
  {
    exists pl: Plan, pre: seq<seq<Reg>> :: PassResult(f, asWritten, junk, h, pl, pre)
  }

  lemma WorklistExact(f: Function, slots: seq<Reg>, pl: Plan)
    requires PlanOk(f, pl) && pl.slots == Elems(slots)
    requires forall v: nat :: v < |slots| ==> PhisAtIdf(f, FrontierTable(f), pl.phi, slots[v])
    ensures PhisExact(f, pl)
  {
    hide PhisAtIdf, FrontierTable, ExactDoms, Shape, JoinBlocks;
    forall a: Reg, b: Label ensures (a, b) in pl.phi <==> a in pl.slots && b in JoinBlocks(f, a) {
      if a in pl.slots {
        var v: nat :| v < |slots| && slots[v] == a;
        SlotExact(f, pl, a, b);
      }
    }
  }

  lemma SlotExact(f: Function, pl: Plan, a: Reg, b: Label)
    requires PlanOk(f, pl) && PhisAtIdf(f, FrontierTable(f), pl.phi, a)
    ensures (a, b) in pl.phi <==> b in JoinBlocks(f, a)
  {
    hide FrontierTable, ExactDoms, FrontierClosed;
    assert (a, b) in pl.phi <==> b in PhiBlocks(f, pl.phi, a);
    if |StoreBlocks(f, a)| > 1 && b in PhiBlocks(f, pl.phi, a) {
      assert InEveryClosed(FrontierTable(f), StoreBlocks(f, a), b);
    }
  }

  lemma FrontiersFit(f: Function, df: seq<seq<Label>>)
    requires Shape(f) && df == FrontierTable(f)
    ensures forall x, y: Label :: 0 <= x < |f.blocks| && y in df[x] ==> 0 < y < |f.blocks|
  {
    hide Shape, PredTable, FrontierList, FrontierTable;
    assert |GraphOf(f)| > 0 by { GraphStarts(f); }
    EntryUnlisted(GraphOf(f));
    forall x: Label, y: Label | x < |f.blocks| && y in df[x] ensures 0 < y < |f.blocks| {
      ListFits(GraphOf(f), PredTable(GraphOf(f)), x, |f.blocks|, y);
    }
  }

  lemma GraphStarts(f: Function)
    requires Shape(f)
    ensures |GraphOf(f)| == |f.blocks| > 0
  {
  }

  lemma EntryUnlisted(g: Graph)
    requires |g| > 0
    ensures |PredTable(g)| == |g| && PredTable(g)[0] == []
  {
    hide PredTable;
    assert IsPredTable(g, PredTable(g));
  }

  lemma ListFits(g: Graph, preds: seq<seq<Label>>, x: Label, n: nat, y: Label)
    requires n <= |preds| && |preds| > 0 && preds[0] == [] && y in FrontierList(g, preds, x, n)
    ensures 0 < y < n
  {
    hide *;
    InFrontierList(g, preds, x, n, y);
  }

  // The set is itself closed, so that it is the least one.
  lemma JoinClosed(f: Function, a: Reg)
    requires Shape(f) && |StoreBlocks(f, a)| > 1
    ensures IsIdf(FrontierTable(f), StoreBlocks(f, a), JoinBlocks(f, a))
  {
    var df := FrontierTable(f);
    FrontiersFit(f, df);
    hide *;
    LeastClosed(df, StoreBlocks(f, a), |f.blocks|, JoinBlocks(f, a));
  }

  lemma LeastClosed(df: seq<seq<Label>>, defs: set<Label>, n: nat, J: set<Label>)
    requires |df| == n && forall x, y: Label :: 0 <= x < n && y in df[x] ==> 0 < y < n
    requires forall y: Label :: y in J <==> y < n && InEveryClosed(df, defs, y)
    ensures IsIdf(df, defs, J)
  {
    hide InEveryClosed;
    forall x: Label, y | x < |df| && (x in defs || x in J) && y in df[x] ensures y in J {
      NextInEvery(df, defs, x, y);
    }
    forall S: set<Label> | FrontierClosed(df, defs, S) ensures J <= S {
      forall y | y in J ensures y in S { InClosed(df, defs, S, y); }
    }
  }

  lemma NextInEvery(df: seq<seq<Label>>, defs: set<Label>, x: Label, y: Label)
    requires x < |df| && (x in defs || InEveryClosed(df, defs, x)) && y in df[x]
    ensures InEveryClosed(df, defs, y)
  {
  }

  lemma InClosed(df: seq<seq<Label>>, defs: set<Label>, S: set<Label>, y: Label)
    requires InEveryClosed(df, defs, y) && FrontierClosed(df, defs, S)
    ensures y in S
  {
  }

  lemma PlanFits(f: Function, slots: seq<Reg>, pl: Plan, nodes: seq<Node>, bodies: seq<seq<Reg>>, pre: seq<seq<Reg>>)
    requires Shape(f) && ExactDoms(GraphOf(f), pl.doms) && pl.slots == Elems(slots)
    requires PlaceInv(f, pl.slots, nodes, bodies, pl.phi, pre)
    ensures PlanOk(f, pl)
    ensures forall a: Reg, b: Label :: (a, b) in pl.phi ==> pl.phi[(a, b)] in pre[b]
  {
    hide ExactDoms, BodyPlaced, WellFormed;
    forall a: Reg, b: Label | (a, b) in pl.phi
      ensures a in pl.slots && 0 < b < |f.blocks| && pl.phi[(a, b)] >= |f.nodes| && pl.phi[(a, b)] in pre[b]
    {
      assert PhiPlaced(f, pl.slots, nodes, pl.phi, pre, a, b);
    }
  }

  // Phis at the iterated frontier are phis at the whole frontier of every definition.
  lemma ExactIsPlaced(f: Function, pl: Plan)
    requires PlanOk(f, pl) && PhisExact(f, pl)
    ensures Placed(f, pl)
  {
    hide ExactDoms, InFrontier, HasStore, JoinBlocks, Shape, PhisExact;
    forall a | a in pl.slots ensures PhiComplete(f, pl, a) || SingleStore(f, pl, a) {
      if |StoreBlocks(f, a)| > 1 {
        IdfComplete(f, pl, a);
      } else {
        FewStores(f, pl, a);
      }
    }
  }

  lemma IdfComplete(f: Function, pl: Plan, a: Reg)
    requires PlanOk(f, pl) && PhisExact(f, pl) && a in pl.slots && |StoreBlocks(f, a)| > 1
    ensures PhiComplete(f, pl, a)
  {
    JoinClosed(f, a);
    var df := FrontierTable(f);
    hide FrontierList, ExactDoms, IsPredTable, InFrontier, HasStore, Shape, JoinBlocks, StoreBlocks, FrontierTable;
    forall x: Label, y: Label | Reachable(GraphOf(f), x) && IsDef(f, pl, a, x) && InFrontier(GraphOf(f), x, y) && y > 0
      ensures (a, y) in pl.phi
    {
      DefInRange(f, pl, a, x);
      FrontierExact(GraphOf(f), PredTable(GraphOf(f)), x, y);
      assert y in df[x];
    }
  }

  lemma DefInRange(f: Function, pl: Plan, a: Reg, x: Label)
    requires PlanOk(f, pl) && PhisExact(f, pl) && IsDef(f, pl, a, x)
    ensures x < |f.blocks| && (x in StoreBlocks(f, a) || x in JoinBlocks(f, a))
  {
    hide ExactDoms, JoinBlocks;
    if HasStore(f, a, x) { LastStoreSome(f, a, x); }
  }

  lemma FewStores(f: Function, pl: Plan, a: Reg)
    requires PlanOk(f, pl) && PhisExact(f, pl) && a in pl.slots && |StoreBlocks(f, a)| <= 1
    ensures SingleStore(f, pl, a)
  {
    hide ExactDoms;
    forall x: Label, y: Label | HasStore(f, a, x) && HasStore(f, a, y) ensures x == y {
      LastStoreSome(f, a, x);
      LastStoreSome(f, a, y);
      if x != y {
        SubsetSize({x, y}, StoreBlocks(f, a));
      }
    }
  }
}
