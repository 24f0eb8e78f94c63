// A function that the literal stack handling of src/tb/opt/mem2reg.c:142-151 breaks: block 3
// joins two definitions of a slot and block 4, entered straight from the entry, reads it.

module LeakExample {
  import opened Finite
  import opened Cfg
  import opened Predecessors
  import opened Postorder
  import opened Ir
  import opened Ssa
  import opened DomTree
  import DomSweep
  import opened Dominators
  import opened Frontiers
  import opened Promotion
  import opened PhiInsertion
  import opened Coherency
  import opened PlacedPhis
  import opened StackWalk
  import opened PromotionRuns
  import opened Leak
  import opened Mem2Reg

  // x = 10; switch (2) { 0: goto 1; 1: goto 2; default: goto 4 }
  // 1: x = 20; goto 3    2: goto 3    3: return    4: return x
  function Fan(): Function
  {
    Function(
      [Null, Pure(10, []), Local, Store(2, 1), Pure(20, []), Store(2, 4), Load(2), Pure(2, [])],
      [Block([1, 2, 3, 7], Switch(7, [SwitchEntry(0, 1), SwitchEntry(1, 2)], 4)),
       Block([4, 5], Goto(3)),
       Block([], Goto(3)),
       Block([], Return(0)),
       Block([6], Return(6))])
  }

  // Operations with these results; a register without a value reads 0.
  function Numbers(): Sem<int, ()>
  {
    Sem((op: nat, _: seq<int>) => op, (op: nat, _: seq<int>, w: ()) => (op, w), (_: Reg) => 0,
        (_: Reg, _: int, w: ()) => (0, w), (_: Reg, _: int, w: ()) => (0, w), (_: Reg, _: int, _: int, w: ()) => w,
        (_: Reg, _: int, w: ()) => w,
        (v: int) => v != 0, (v: int) => v, 0)
  }

  lemma FanNodes()
    ensures |Fan().nodes| == 8 && |Fan().blocks| == 5
    ensures Fan().nodes[0] == Null && Fan().nodes[1] == Pure(10, []) && Fan().nodes[2] == Local
    ensures Fan().nodes[3] == Store(2, 1) && Fan().nodes[4] == Pure(20, []) && Fan().nodes[5] == Store(2, 4)
    ensures Fan().nodes[6] == Load(2) && Fan().nodes[7] == Pure(2, [])
  {
  }

  lemma FanBlocks()
    ensures |Fan().blocks| == 5 && |GraphOf(Fan())| == 5 && Fan().types == PLAIN
    ensures Fan().blocks[0] == Block([1, 2, 3, 7], Switch(7, [SwitchEntry(0, 1), SwitchEntry(1, 2)], 4))
    ensures Fan().blocks[1] == Block([4, 5], Goto(3)) && Fan().blocks[2] == Block([], Goto(3))
    ensures Fan().blocks[3] == Block([], Return(0)) && Fan().blocks[4] == Block([6], Return(6))
  {
  }

  lemma FanTargets()
    ensures |GraphOf(Fan())| == 5
    ensures Targets(GraphOf(Fan())[0]) == [4, 2, 1] && Targets(GraphOf(Fan())[1]) == [3]
    ensures Targets(GraphOf(Fan())[2]) == [3] && Targets(GraphOf(Fan())[3]) == [] && Targets(GraphOf(Fan())[4]) == []
  {
    hide Fan;
    FanBlocks();
    assert ReverseTargets([SwitchEntry(0, 1), SwitchEntry(1, 2)]) == [2, 1];
  }

  lemma FanEdges()
    ensures forall a: Label, b: Label :: Edge(GraphOf(Fan()), a, b) <==>
              (a, b) in {(0, 1), (0, 2), (0, 4), (1, 3), (2, 3)}
    ensures WellFormed(GraphOf(Fan()))
  {
    hide Fan, Targets, GraphOf;
    var g := GraphOf(Fan());
    FanTargets();
    forall a: Label, b: Label ensures Edge(g, a, b) <==> (a, b) in {(0, 1), (0, 2), (0, 4), (1, 3), (2, 3)} {
      if a == 0 {
      } else if a == 1 {
      } else if a == 2 {
      } else if a == 3 {
      } else if a == 4 {
      }
    }
    forall b, l | 0 <= b < |g| && l in Targets(g[b]) ensures l < |g| {
      assert b == 0 || b == 1 || b == 2 || b == 3 || b == 4;
    }
  }

  function Home(r: Reg): (int, int)
  {
    if r == 7 then (0, 3) else if r <= 3 then (0, r - 1) else if r == 6 then (4, 0) else (1, r - 4)
  }

  lemma FanShape()
    ensures Shape(Fan())
  {
    hide Fan, WellFormed;
    var f := Fan();
    FanEdges();
    FanBlocks();
    FanNodes();
    forall b, k | 0 <= b < 5 && 0 <= k < |f.blocks[b].body|
      ensures f.blocks[b].body[k] < 8 && Home(f.blocks[b].body[k]) == (b, k)
    {
      assert b == 0 || b == 1 || b == 2 || b == 3 || b == 4;
    }
  }

  lemma FanPaths()
    ensures var g := GraphOf(Fan());
            PathTo(g, [0, 1], 1) && PathTo(g, [0, 2], 2) && PathTo(g, [0, 1, 3], 3) && PathTo(g, [0, 2, 3], 3) &&
              PathTo(g, [0, 4], 4)
  {
    hide Fan, Edge, WellFormed;
    FanBlocks();
    FanEdges();
  }

  // ----- What the pass makes of it -----

  lemma FanReach(b: Label)
    requires b < 5
    ensures Reachable(GraphOf(Fan()), b)
  {
    hide PathTo, Fan;
    FanPaths();
    FanBlocks();
    EntryReachable(GraphOf(Fan()));
    assert b == 0 || b == 1 || b == 2 || b == 3 || b == 4;
  }

  // Every block but the entry hangs below the entry.
  lemma FanIdom(b: Label, x: Label)
    requires 0 < b < 5
    ensures IsIdom(GraphOf(Fan()), 0, b) && (Dom(GraphOf(Fan()), x, b) <==> x == 0 || x == b)
  {
    hide Fan, PathTo;
    var g := GraphOf(Fan());
    FanBlocks();
    FanPaths();
    assert b == 1 || b == 2 || b == 3 || b == 4;
    EntryDominates(g, b);
    forall y | Sdom(g, y, b) ensures Dom(g, y, 0) {
      FanDom(b, y);
      EntryDominates(g, 0);
    }
    if Dom(g, x, b) { FanDom(b, x); }
    SelfDominates(g, b);
  }

  lemma FanDom(b: Label, x: Label)
    requires 0 < b < 5 && Dom(GraphOf(Fan()), x, b)
    ensures x == 0 || x == b
  {
    hide Fan, PathTo;
    FanPaths();
    assert b == 1 || b == 2 || b == 3 || b == 4;
  }

  lemma SelfDominates(g: Graph, b: Label)
    ensures Dom(g, b, b)
  {
  }

  lemma FanDoms(D: Doms)
    requires ExactDoms(GraphOf(Fan()), D)
    ensures D == [0, 0, 0, 0, 0]
  {
    hide Fan;
    var g := GraphOf(Fan());
    FanBlocks();
    forall b: Label | 0 < b < 5 ensures D[b] == 0 {
      FanReach(b);
      FanIdom(b, 0);
      IdomUnique(g, 0, D[b], b);
    }
  }

  // The only frontiers are those of blocks 1 and 2, and they hold block 3.
  lemma FanFrontier(x: Label, y: Label)
    requires x < 5
    ensures Shape(Fan()) && |FrontierTable(Fan())| == 5
    ensures y in FrontierTable(Fan())[x] <==> (x == 1 || x == 2) && y == 3
  {
    hide Fan, PredTable, FrontierTable, Edge, Reachable, Dom, Shape, InFrontier, GraphOf;
    var g := GraphOf(Fan());
    FanShape();
    FanBlocks();
    FanEdges();
    FanReach(x);
    FrontierExact(g, PredTable(g), x, y);
    if 0 < y { FanInFrontier(x, y); }
  }

  lemma FanInFrontier(x: Label, y: Label)
    requires x < 5
    ensures InFrontier(GraphOf(Fan()), x, y) && 0 < y <==> (x == 1 || x == 2) && y == 3
  {
    hide Fan, Edge, Reachable, Dom, Shape, GraphOf;
    var g := GraphOf(Fan());
    FanEdges();
    FanReach(x);
    if 0 < y && InFrontier(g, x, y) {
      var a: Label :| Reachable(g, a) && Edge(g, a, y) && Dom(g, x, a) && !Sdom(g, x, y);
      FanIdom(y, x);
      if a == 0 { DomEntry(g, x); } else { FanIdom(a, x); }
    }
    if (x == 1 || x == 2) && y == 3 {
      FanIdom(3, x);
      FanIdom(x, x);
      assert Edge(g, x, 3) && Dom(g, x, x);
    }
  }

  lemma FanStored(b: Label, k: nat)
    requires b < 5
    ensures Shape(Fan()) && |Fan().blocks| == 5
    ensures k < |Fan().blocks[b].body| ==>
              Fan().blocks[b].body[k] < 8
              && (Stored(Fan(), Fan().blocks[b].body[k], 2).Some? <==> (b == 0 && k == 2) || (b == 1 && k == 1))
  {
    hide Fan, Shape;
    FanShape();
    FanBlocks();
    FanNodes();
    assert b == 0 || b == 1 || b == 2 || b == 3 || b == 4;
  }

  lemma FanStoreBlock(b: Label)
    requires b < 5
    ensures Shape(Fan()) && (HasStore(Fan(), 2, b) <==> b == 0 || b == 1)
  {
    hide Fan, Shape, Stored;
    var f := Fan();
    FanBlocks();
    FanStored(b, 0);
    FanStored(b, 1);
    FanStored(b, 2);
    FanStored(b, 3);
    assert b == 0 || b == 1 || b == 2 || b == 3 || b == 4;
    FanNodes();
    assert b == 0 ==> f.blocks[b].body[2] < |f.nodes| && Stored(f, f.blocks[b].body[2], 2).Some?;
    assert b == 1 ==> f.blocks[b].body[1] < |f.nodes| && Stored(f, f.blocks[b].body[1], 2).Some?;
  }

  lemma FanStores()
    ensures Shape(Fan()) && StoreBlocks(Fan(), 2) == {0, 1} && |StoreBlocks(Fan(), 2)| == 2
  {
    hide Fan, Shape, HasStore, LastStore;
    FanShape();
    FanBlocks();
    var s := StoreBlocks(Fan(), 2);
    forall b: Label ensures b in s <==> b == 0 || b == 1 {
      if b < 5 {
        LastStoreSome(Fan(), 2, b);
        FanStoreBlock(b);
      }
    }
    assert s == {0, 1};
  }

  // In a table of these frontiers, what every closed set holds is block 3.
  lemma OnlyThree(df: seq<seq<Label>>, y: Label)
    requires |df| == 5 && forall x: Label, z: Label :: x < 5 ==> (z in df[x] <==> (x == 1 || x == 2) && z == 3)
    ensures InEveryClosed(df, {0, 1}, y) <==> y == 3
  {
    assert FrontierClosed(df, {0, 1}, {3});
    forall S: set<Label> | FrontierClosed(df, {0, 1}, S) ensures 3 in S {
      assert 3 in df[1];
    }
    if InEveryClosed(df, {0, 1}, y) { assert y in {3}; }
  }

  lemma FanJoin()
    ensures Shape(Fan()) && JoinBlocks(Fan(), 2) == {3}
  {
    hide Fan, Shape, FrontierTable, StoreBlocks, InEveryClosed;
    FanShape();
    FanStores();
    FanBlocks();
    var df := FrontierTable(Fan());
    forall x: Label, y: Label | x < 5 ensures y in df[x] <==> (x == 1 || x == 2) && y == 3 { FanFrontier(x, y); }
    forall y: Label ensures y in JoinBlocks(Fan(), 2) <==> y == 3 { OnlyThree(df, y); }
  }

  lemma FanDefined()
    ensures Shape(Fan()) && |Fan().blocks| == 5 && |Fan().blocks[0].body| == 4 && |Fan().blocks[1].body| == 2
    ensures |Fan().blocks[4].body| == 1
    ensures DefinedBefore(Fan(), 1, 0, 2) && DefinedBefore(Fan(), 2, 0, 2) && DefinedBefore(Fan(), 7, 0, 4)
    ensures DefinedBefore(Fan(), 2, 1, 1) && DefinedBefore(Fan(), 4, 1, 1)
    ensures DefinedBefore(Fan(), 2, 4, 0) && DefinedBefore(Fan(), 6, 4, 1)
  {
    hide Fan, Shape, Dom;
    var f := Fan();
    FanShape();
    FanBlocks();
    FanEntryDominates();
    assert f.blocks[0].body[..2] == [1, 2] && f.blocks[1].body[..1] == [4];
    assert f.blocks[0].body[..4] == [1, 2, 3, 7] && f.blocks[4].body[..1] == [6];
    assert 2 in f.blocks[0].body by { assert f.blocks[0].body[1] == 2; }
  }

  lemma FanNodeFits(b: Label, k: nat)
    requires b < 5
    ensures Shape(Fan()) && |Fan().blocks| == 5
    ensures k < |Fan().blocks[b].body| ==> NodeDominated(Fan(), b, k)
    ensures k < |Fan().blocks[b].body| ==> NodeCoherent(Fan().nodes[Fan().blocks[b].body[k]], {2})
    ensures forall u :: u in EndUses(Fan().blocks[b].end) ==>
              u != 2 && DefinedBefore(Fan(), u, b, |Fan().blocks[b].body|)
  {
    hide Fan, Shape, DefinedBefore;
    FanDefined();
    FanBlocks();
    FanNodes();
    assert b == 0 || b == 1 || b == 2 || b == 3 || b == 4;
    if b == 0 && k < 4 {
      assert k == 0 || k == 1 || k == 2 || k == 3;
    }
  }

  lemma FanEntryDominates()
    ensures forall b: Label :: 0 < b ==> Sdom(GraphOf(Fan()), 0, b)
  {
    forall b: Label | 0 < b ensures Sdom(GraphOf(Fan()), 0, b) { EntryDominates(GraphOf(Fan()), b); }
  }

  lemma FanPhiFree()
    ensures PhiFree(Fan(), [])
  {
    hide Fan, Shape;
    var f := Fan();
    FanShape();
    FanBlocks();
    FanNodes();
    forall b: Label, k: nat, a: Reg | b < 5 && k < |f.blocks[b].body| ensures StoredFits(f, b, k, a) {
      assert b == 0 || b == 1 || b == 4;
    }
  }

  lemma FanIsReady()
    ensures Ready(Fan()) && FrontiersEnd(GraphOf(Fan()))
  {
    hide Fan, Shape, PhiFree, FrontiersEnd;
    var f := Fan();
    FanPhiFree();
    FanShape();
    FanBlocks();
    forall b: Label | b < 5 ensures BlockDominated(f, b) {
      forall k: nat | k < |f.blocks[b].body| ensures NodeDominated(f, b, k) { FanNodeFits(b, k); }
      FanNodeFits(b, 0);
    }
    forall b: Label | b < |GraphOf(f)| ensures Reachable(GraphOf(f), b) { FanReach(b); }
    ReachableFrontiersEnd(GraphOf(f));
  }

  lemma FanCoherent()
    ensures Shape(Fan()) && OnlyAddresses(Fan(), {2}) && Accessed(Fan(), 2)
  {
    hide Fan, Shape, NodeCoherent, NodeDominated, DefinedBefore;
    var f := Fan();
    FanShape();
    FanBlocks();
    FanNodes();
    forall b: Label, k: nat | b < 5 && k < |f.blocks[b].body| ensures NodeCoherent(f.nodes[f.blocks[b].body[k]], {2}) {
      FanNodeFits(b, k);
    }
    forall b: Label, u | b < 5 && u in EndUses(f.blocks[b].end) ensures u !in {2} { FanNodeFits(b, 0); }
    assert IsAddressUse(f.nodes[f.blocks[0].body[2]], 2);
  }

  // Register 2 is the one slot that the pass chooses.
  lemma FanSlots()
    requires Shape(Fan())
    ensures SlotsOf(Fan()) == {2}
  {
    hide Fan, Shape, Coherent, OnlyAddresses, Accessed, SlotsOf, Verdict;
    var slots := SlotsOf(Fan());
    var f := Fan();
    FanBlocks();
    FanNodes();
    FanCoherent();
    PlainVerdict(f, 2);
    assert Promotable(f, 2);
    assert 2 in f.blocks[0].body by { assert f.blocks[0].body[1] == 2; }
    forall a | a in slots ensures a == 2 {
      FanLocal(a);
    }
  }

  lemma FanLocal(a: Reg)
    requires Shape(Fan()) && Promotable(Fan(), a)
    ensures a == 2
  {
    hide Fan, Shape, Verdict;
    FanNodes();
    if a != 2 { FanKind(a); }
  }

  lemma FanKind(a: Reg)
    requires a < 8 && a != 2
    ensures |Fan().nodes| == 8 && !Fan().nodes[a].Local? && !Fan().nodes[a].ParamAddr?
  {
    FanNodes();
    assert a == 0 || a == 1 || a == 3 || a == 4 || a == 5 || a == 6 || a == 7;
  }

  // Any plan of the pass has one phi, for slot 2 in block 3.
  lemma FanPlan(junk: Reg, h: Function, pl: Plan, pre: seq<seq<Reg>>)
    requires PassResult(Fan(), true, junk, h, pl, pre)
    ensures pl.slots == {2} && pl.doms == [0, 0, 0, 0, 0]
    ensures forall a: Reg, b: Label :: (a, b) in pl.phi <==> a == 2 && b == 3
    ensures pl.phi[(2, 3)] >= 8
  {
    hide *;
    PassParts(Fan(), true, junk, h, pl, pre);
    FanSlots();
    FanDoms(pl.doms);
    FanJoin();
    FanNodes();
    forall a: Reg, b: Label ensures (a, b) in pl.phi <==> a == 2 && b == 3 { PhiHere(Fan(), pl, a, b); }
    PhiHere(Fan(), pl, 2, 3);
  }

  lemma PhiHere(f: Function, pl: Plan, a: Reg, b: Label)
    requires PlanOk(f, pl) && PhisExact(f, pl)
    ensures (a, b) in pl.phi <==> a in pl.slots && b in JoinBlocks(f, a)
    ensures (a, b) in pl.phi ==> pl.phi[(a, b)] >= |f.nodes|
  {
    hide JoinBlocks, Shape, ExactDoms;
  }

  lemma PassRenamed(f: Function, junk: Reg, h: Function, pl: Plan, pre: seq<seq<Reg>>)
    requires PassResult(f, true, junk, h, pl, pre)
    ensures PlanOk(f, pl) && Rewritten(f, h, pl, pre)
  {
  }

  lemma NothingInFront(junk: Reg, h: Function, pl: Plan, pre: seq<seq<Reg>>, b: Label)
    requires PassResult(Fan(), true, junk, h, pl, pre) && b < 5 && b != 3
    ensures |h.blocks| == 5 && h.blocks[b] == Fan().blocks[b]
  {
    hide PlanOk, NodeRenamed, PhiRenamed, Fan, PassResult;
    FanBlocks();
    PassRenamed(Fan(), junk, h, pl, pre);
    FanPlan(junk, h, pl, pre);
    assert BlockRenamed(Fan(), h, pl, pre, b);
    assert |pre[b]| > 0 ==> PlacedIn(pl, b, pre[b][0]);
    assert [] + Fan().blocks[b].body == Fan().blocks[b].body;
  }

  // The nodes that the run through blocks 0 and 4 uses.
  lemma FanRenamed(junk: Reg, h: Function, pl: Plan, pre: seq<seq<Reg>>)
    requires PassResult(Fan(), true, junk, h, pl, pre)
    ensures |h.nodes| >= 8 && (2, 3) in pl.phi
    ensures h.nodes[1] == Pure(10, []) && h.nodes[2] == Null && h.nodes[3] == Null && h.nodes[7] == Pure(2, [])
    ensures h.nodes[6] == Pass(pl.phi[(2, 3)])
  {
    hide PlanOk, BlockRenamed, PhiRenamed, Fan, Def, PassResult;
    var f := Fan();
    FanNodes();
    FanBlocks();
    PassRenamed(f, junk, h, pl, pre);
    FanPlan(junk, h, pl, pre);
    FanLeak(junk, h, pl, pre);
    assert NodeRenamed(f, h.nodes, pl, 0, 0);
    assert NodeRenamed(f, h.nodes, pl, 0, 1);
    assert NodeRenamed(f, h.nodes, pl, 0, 2);
    assert NodeRenamed(f, h.nodes, pl, 0, 3);
    assert NodeRenamed(f, h.nodes, pl, 4, 0);
  }

  lemma FanLeak(junk: Reg, h: Function, pl: Plan, pre: seq<seq<Reg>>)
    requires PassResult(Fan(), true, junk, h, pl, pre)
    ensures |Fan().blocks| == 5 && |Fan().blocks[4].body| > 0 && (2, 3) in pl.phi
    ensures Def(Fan(), pl, 2, 4, 0) == Some(pl.phi[(2, 3)])
  {
    FanIsReady();
    hide Fan, PlanOk, PhisExact, Rewritten, ReadsExactly, AreEntryTops, SlotList, Ready, JoinBlocks;
    FanBlocks();
    FanPlan(junk, h, pl, pre);
    OneSlot();
    assert Roomy(Fan(), pl) by { ReadyPhiFree(Fan()); }
    RoomyTop(Fan(), pl, 2, 4);
    assert Leaked(PassSetup(Fan(), pl, true), 2, 0, 4) == Some(pl.phi[(2, 3)]);
  }

  lemma ReadyPhiFree(f: Function)
    requires Ready(f)
    ensures PhiFree(f, [])
  {
  }

  lemma OneSlot()
    requires Shape(Fan())
    ensures |SlotList(Fan())| == 1
  {
    hide Fan, SlotList, Shape;
    FanSlots();
    DistinctSize(SlotList(Fan()));
    assert Elems(SlotList(Fan())) == {2};
  }

  lemma BlockZero(h: Function, slots: set<Reg>, p: Reg)
    requires p >= 8
    requires |h.nodes| >= 8 && h.nodes[1] == Pure(10, []) && h.nodes[7] == Pure(2, [])
    requires slots == {2} || slots == {}
    requires slots == {2} ==> h.nodes[2] == Local && h.nodes[3] == Store(2, 1)
    requires slots == {} ==> h.nodes[2] == Null && h.nodes[3] == Null
    ensures var st := ExecBody(Numbers(), slots, h, [1, 2, 3, 7], 4, State(map[], map[], ()));
            p !in st.regs && 7 in st.regs && st.regs[7] == 2 && (slots == {2} ==> 2 in st.slots && st.slots[2] == 10)
  {
    var sem, b := Numbers(), [1, 2, 3, 7];
    var st: State<int, ()> := State(map[], map[], ());
    assert sem.pure(10, []) == 10 && sem.pure(2, []) == 2;
    var s1 := ExecBody(sem, slots, h, b, 1, st);
    assert Vals(sem, st, []) == [] && b[0] == 1;
    assert ExecBody(sem, slots, h, b, 0, st) == st;
    assert s1 == Assign(st, 1, 10);
    var s2 := ExecBody(sem, slots, h, b, 2, st);
    assert s2 == s1;
    var s3 := ExecBody(sem, slots, h, b, 3, st);
    assert s3 == if slots == {2} then s1.(slots := s1.slots[2 := 10]) else s1;
  }

  // Arriving at a block without phis changes nothing.
  lemma PlainEntry(h: Function, body: seq<Reg>, from: Label, st: State<int, ()>)
    requires forall r :: r in body && r < |h.nodes| ==> !h.nodes[r].Phi?
    ensures EnterBlock(Numbers(), h, body, from, st) == st
  {
    assert PhiMoves(Numbers(), h, body, from, st) == map[];
    assert st.regs + map[] == st.regs;
  }

  // Two steps: block 0, then block 4.
  lemma TwoSteps(h: Function, slots: set<Reg>, p: Reg)
    requires Shape(h) && |h.blocks| == 5 && |h.nodes| >= 8 && p >= 8
    requires h.blocks[0] == Block([1, 2, 3, 7], Switch(7, [SwitchEntry(0, 1), SwitchEntry(1, 2)], 4))
    requires h.blocks[4] == Block([6], Return(6))
    requires h.nodes[1] == Pure(10, []) && h.nodes[7] == Pure(2, [])
    requires if slots == {2} then h.nodes[2] == Local && h.nodes[3] == Store(2, 1) && h.nodes[6] == Load(2)
             else slots == {} && h.nodes[2] == Null && h.nodes[3] == Null && h.nodes[6] == Pass(p)
    ensures var c := Run(Numbers(), slots, h, (), 2);
            c.Halted? && c.outcome == Returned(if slots == {2} then 10 else 0)
  {
    hide Shape, EnterBlock;
    var sem := Numbers();
    var st0: State<int, ()> := State(map[], map[], ());
    BlockZero(h, slots, p);
    PlainEntry(h, [1, 2, 3, 7], 5, st0);
    var st1 := ExecBody(sem, slots, h, [1, 2, 3, 7], 4, st0);
    PlainEntry(h, [6], 0, st1);
    assert Run(sem, slots, h, (), 0) == At(0, 5, st0);
    StepIs(sem, slots, h, At(0, 5, st0), st0, st1);
    SwitchDefault();
    assert Leave(sem, h.blocks[0].end, st1) == Next(4);
    assert Run(sem, slots, h, (), 1) == At(4, 0, st1);
    LastBlock(h, slots, p, st1);
  }

  lemma SwitchDefault()
    ensures SwitchTarget([SwitchEntry(0, 1), SwitchEntry(1, 2)], 4, 2) == 4
  {
    assert [SwitchEntry(0, 1), SwitchEntry(1, 2)][1..] == [SwitchEntry(1, 2)];
    assert SwitchTarget([SwitchEntry(1, 2)], 4, 2) == 4;
  }

  lemma LastBlock(h: Function, slots: set<Reg>, p: Reg, st: State<int, ()>)
    requires Shape(h) && |h.blocks| == 5 && |h.nodes| >= 8 && h.blocks[4] == Block([6], Return(6))
    requires if slots == {2} then h.nodes[6] == Load(2) && 2 in st.slots && st.slots[2] == 10
             else slots == {} && h.nodes[6] == Pass(p) && p !in st.regs
    ensures var c := Step(Numbers(), slots, h, At(4, 0, st));
            c.Halted? && c.outcome == Returned(if slots == {2} then 10 else 0)
  {
    hide EnterBlock, Shape;
    PlainEntry(h, [6], 0, st);
    assert ExecBody(Numbers(), slots, h, [6], 0, st) == st;
    StepIs(Numbers(), slots, h, At(4, 0, st), st, ExecBody(Numbers(), slots, h, [6], 1, st));
  }

  // The original returns 10; whatever the literal renaming makes of it returns the register of
  // a phi that was never reached.
  lemma LeakBreaksRuns(junk: Reg, h: Function, pl: Plan, pre: seq<seq<Reg>>)
    requires PassResult(Fan(), true, junk, h, pl, pre)
    ensures Shape(Fan()) && Run(Numbers(), {2}, Fan(), (), 2).Halted? && Run(Numbers(), {}, h, (), 2).Halted?
    ensures Run(Numbers(), {2}, Fan(), (), 2).outcome == Returned(10)
    ensures Run(Numbers(), {}, h, (), 2).outcome == Returned(0)
  {
    hide Fan, PlanOk, Rewritten, Shape, Run, PhisExact;
    FanShape();
    FanBlocks();
    FanNodes();
    FanPlan(junk, h, pl, pre);
    FanRenamed(junk, h, pl, pre);
    NothingInFront(junk, h, pl, pre, 0);
    NothingInFront(junk, h, pl, pre, 4);
    TwoSteps(Fan(), {2}, 8);
    TwoSteps(h, {}, pl.phi[(2, 3)]);
  }

  lemma FanLoad(b: Label, k: nat)
    requires b < 5
    ensures |Fan().blocks| == 5
    ensures k < |Fan().blocks[b].body| ==> Fan().blocks[b].body[k] < |Fan().nodes|
    ensures k < |Fan().blocks[b].body| && Fan().nodes[Fan().blocks[b].body[k]].Load? ==> b == 4 && k == 0
    ensures |Fan().blocks[4].body| == 1 && Fan().blocks[4].body[0] < |Fan().nodes|
    ensures Fan().nodes[Fan().blocks[4].body[0]] == Load(2)
  {
    hide Fan;
    FanBlocks();
    FanNodes();
    assert b == 0 || b == 1 || b == 2 || b == 3 || b == 4;
  }

  // Yet the slot is stored to before every load of it ...
  lemma FanStoresFirst()
    ensures Shape(Fan()) && LoadsInitialised(Fan(), {2})
  {
    hide Fan, Shape, Edge, HasStore, Reachable;
    FanShape();
    FanBlocks();
    FanStoreBlock(0);
    FanLoad(4, 0);
    forall p | PathTo(GraphOf(Fan()), p, 4) ensures PassesStore(Fan(), 2, p) {
      assert HasStore(Fan(), 2, p[0]);
    }
    assert StoredBefore(Fan(), 2, 4, 0);
    forall b: Label, k: nat | b < 5 && k < |Fan().blocks[b].body|
      ensures Fan().blocks[b].body[k] < |Fan().nodes|
      ensures (Fan().nodes[Fan().blocks[b].body[k]].Load? ==> b == 4 && k == 0)
    {
      FanLoad(b, k);
    }
  }

  // ----- The pass does get that far -----

  lemma FanOrder()
    ensures WellFormed(GraphOf(Fan())) && PostorderOf(GraphOf(Fan())) == [4, 3, 2, 1, 0]
  {
    hide Fan, WellFormed, Targets, GraphOf, Walk;
    var g := GraphOf(Fan());
    FanEdges();
    FanTargets();
    WalkSeen(g, {0}, 4);
    WalkSeen(g, {0, 4, 2}, 3);
    WalkOne(g, {0, 4}, 2, 3);
    assert {0, 4} + {2} == {0, 4, 2};
    WalkSeen(g, {0, 4, 3, 2, 1}, 3);
    WalkOne(g, {0, 4, 3, 2}, 1, 3);
    assert {0, 4, 3, 2} + {1} == {0, 4, 3, 2, 1};
    FanWalk(g);
  }

  lemma FanWalk(g: Graph)
    requires WellFormed(g) && |g| == 5 && Targets(g[0]) == [4, 2, 1]
    requires Walk(g, {0}, 4) == [4] && Walk(g, {0, 4}, 2) == [3, 2] && Walk(g, {0, 4, 3, 2}, 1) == [1]
    ensures PostorderOf(g) == [4, 3, 2, 1, 0]
  {
    hide Walk, WalkAll, WellFormed, PostorderOf;
    WalkStart(g);
    assert [4, 2, 1] == [4] + [2, 1] && [2, 1] == [2] + [1] && [1] == [1] + [];
    FanSets();
    WalkFirst(g, {0}, 4, [2, 1], [4], {0, 4});
    WalkFirst(g, {0, 4}, 2, [1], [3, 2], {0, 4, 3, 2});
    WalkFirst(g, {0, 4, 3, 2}, 1, [], [1], {0, 4, 3, 2, 1});
    WalkNone(g, {0, 4, 3, 2, 1});
  }

  lemma FanSets()
    ensures {0} + Elems([4]) == {0, 4} && {0, 4} + Elems([3, 2]) == {0, 4, 3, 2}
    ensures {0, 4, 3, 2} + Elems([1]) == {0, 4, 3, 2, 1}
  {
  }

  lemma FanFirstPreds()
    ensures var g := GraphOf(Fan());
            |g| == 5 && forall b: Label :: 0 < b < 5 ==>
              PredTable(g)[b] != [] && PredTable(g)[b][0] == if b == 3 then 1 else 0
  {
    hide Fan, Edge, PredTable, GraphOf, WellFormed;
    var g := GraphOf(Fan());
    FanTargets();
    FanEdges();
    forall b: Label | 0 < b < 5 ensures PredTable(g)[b] != [] && PredTable(g)[b][0] == if b == 3 then 1 else 0 {
      FirstIsLowest(g, b, if b == 3 then 1 else 0);
    }
  }

  lemma FanNames()
    ensures NamesOnce(GraphOf(Fan()))
  {
    hide Fan;
    FanBlocks();
    FanTargets();
  }

  lemma FanSupported()
    ensures WellFormed(GraphOf(Fan())) && !Unsupported(GraphOf(Fan()))
  {
    hide Fan, Edge, WellFormed, PostorderOf, PredTable, GraphOf, Pos;
    var g := GraphOf(Fan());
    FanOrder();
    FanFirstPreds();
    FanNames();
    NamesOnceTable(g);
    var o := [4, 3, 2, 1, 0];
    forall c | 0 <= c < 4 ensures DomSweep.FirstPredLater(PredTable(g), o, o[c]) {
      OrderPos(c);
      OrderPos(4);
      OrderPos(3);
      assert c == 0 || c == 1 || c == 2 || c == 3;
    }
  }

  lemma OrderPos(c: nat)
    requires c < 5
    ensures Pos([4, 3, 2, 1, 0], 4 - c) == c
  {
    var o := [4, 3, 2, 1, 0];
    assert o[Pos(o, 4 - c)] == 4 - c;
  }

  // The literal pass turns the function into one that returns something else.
  method FanFails(junk: Reg) returns (h: Function)
    ensures Shape(Fan()) && Shape(h) && LoadsInitialised(Fan(), {2})
    ensures Run(Numbers(), {2}, Fan(), (), 2).Halted? && Run(Numbers(), {2}, Fan(), (), 2).outcome == Returned(10)
    ensures Run(Numbers(), {}, h, (), 2).Halted? && Run(Numbers(), {}, h, (), 2).outcome == Returned(0)
  {
    hide Fan, Ready, FrontiersEnd, Run, PhisExact, Rewritten, PlanOk, Unsupported, LoadsInitialised,
         LeakFree;
    FanIsReady();
    FanSupported();
    FanStoresFirst();
    FanSlots();
    var r := PromoteSlots(Fan(), true, junk);
    h := r.value;
    ghost var pl: Plan, pre: seq<seq<Reg>> :| PassResult(Fan(), true, junk, h, pl, pre);
    LeakBreaksRuns(junk, h, pl, pre);
  }
}
