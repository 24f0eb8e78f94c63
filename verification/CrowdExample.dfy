// A function with more promoted slots than blocks, which the heights of src/tb/opt/mem2reg.c:143
// break: those noted for block 2 overwrite one that block 1 goes back to, and block 3 reads what
// block 1 stored.

module CrowdExample {
  import opened Cfg
  import opened Predecessors
  import opened Ir
  import opened Ssa
  import opened DomTree
  import opened Dominators
  import opened Frontiers
  import opened Promotion
  import opened PhiInsertion
  import opened Coherency
  import opened StackWalk
  import opened PlacedPhis
  import opened PromotionRuns
  import opened Leak
  import LeakExample
  import opened Mem2Reg

  // Slots 1 to 5.
  // 0: x = 10; store x to each; if (0) goto 1 else goto 3
  // 1: y = 20; store y to 1 and 5; goto 2    2: return    3: return load 5
  function Crowd(): Function
  {
    Function(
      [Null, Local, Local, Local, Local, Local, Pure(10, []), Store(1, 6), Store(2, 6), Store(3, 6), Store(4, 6),
       Store(5, 6), Pure(0, []), Pure(20, []), Store(1, 13), Store(5, 13), Load(5)],
      [Block([1, 2, 3, 4, 5, 6, 7, 8, 9, 10, 11, 12], If(12, 1, 3)),
       Block([13, 14, 15], Goto(2)),
       Block([], Return(0)),
       Block([16], Return(16))])
  }

  lemma CrowdNodes()
    ensures |Crowd().nodes| == 17 && |Crowd().blocks| == 4 && Crowd().nodes[0] == Null
    ensures forall r: Reg :: 1 <= r <= 5 ==> Crowd().nodes[r] == Local
    ensures Crowd().nodes[6] == Pure(10, []) && Crowd().nodes[12] == Pure(0, []) && Crowd().nodes[13] == Pure(20, [])
    ensures forall r: Reg :: 7 <= r <= 11 ==> Crowd().nodes[r] == Store(r - 6, 6)
    ensures Crowd().nodes[14] == Store(1, 13) && Crowd().nodes[15] == Store(5, 13) && Crowd().nodes[16] == Load(5)
  {
  }

  lemma CrowdBlocks()
    ensures Crowd().types == PLAIN && |Crowd().blocks| == 4
    ensures GraphOf(Crowd()) == [If(12, 1, 3), Goto(2), Return(0), Return(16)]
    ensures |Crowd().blocks[0].body| == 12 && Crowd().blocks[0].end == If(12, 1, 3)
    ensures forall k: nat :: k < 12 ==> Crowd().blocks[0].body[k] == k + 1
    ensures Crowd().blocks[1] == Block([13, 14, 15], Goto(2)) && Crowd().blocks[2] == Block([], Return(0))
    ensures Crowd().blocks[3] == Block([16], Return(16))
  {
  }

  lemma CrowdEdges()
    ensures forall a: Label, b: Label :: Edge(GraphOf(Crowd()), a, b) <==> (a, b) in {(0, 1), (0, 3), (1, 2)}
    ensures WellFormed(GraphOf(Crowd()))
  {
    hide Crowd, Targets;
    CrowdBlocks();
    var g := GraphOf(Crowd());
    forall a: Label, b: Label ensures Edge(g, a, b) <==> (a, b) in {(0, 1), (0, 3), (1, 2)} {
      if a < 4 { CrowdTargets(a, b); }
    }
    forall b: Label, l | b < 4 && l in Targets(g[b]) ensures l < 4 { CrowdTargets(b, l); }
  }

  lemma CrowdTargets(a: Label, b: Label)
    requires a < 4
    ensures |GraphOf(Crowd())| == 4
    ensures b in Targets(GraphOf(Crowd())[a]) <==> (a == 0 && (b == 1 || b == 3)) || (a == 1 && b == 2)
  {
    hide Crowd;
    CrowdBlocks();
  }

  function Home(r: Reg): (int, int)
  {
    if r <= 12 then (0, r - 1) else if r == 16 then (3, 0) else (1, r - 13)
  }

  lemma CrowdShape()
    ensures Shape(Crowd())
  {
    hide Crowd, WellFormed;
    var f := Crowd();
    CrowdEdges();
    CrowdBlocks();
    CrowdNodes();
    forall b, k | 0 <= b < 4 && 0 <= k < |f.blocks[b].body|
      ensures f.blocks[b].body[k] < 17 && Home(f.blocks[b].body[k]) == (b, k)
    {
      assert b == 0 || b == 1 || b == 2 || b == 3;
    }
  }

  lemma CrowdPaths()
    ensures var g := GraphOf(Crowd());
            PathTo(g, [0], 0) && PathTo(g, [0, 1], 1) && PathTo(g, [0, 1, 2], 2) && PathTo(g, [0, 3], 3)
  {
    hide Crowd, Edge, WellFormed;
    CrowdBlocks();
    CrowdEdges();
  }

  lemma CrowdReach(b: Label)
    requires b < 4
    ensures Reachable(GraphOf(Crowd()), b)
  {
    hide PathTo, Crowd;
    CrowdPaths();
    assert b == 0 || b == 1 || b == 2 || b == 3;
  }

  lemma OneBeforeTwo()
    ensures Sdom(GraphOf(Crowd()), 1, 2)
  {
    hide Crowd, Edge;
    CrowdEdges();
    CrowdBlocks();
    forall p | PathTo(GraphOf(Crowd()), p, 2) ensures 1 in p {
      assert Edge(GraphOf(Crowd()), p[|p| - 2], p[|p| - 1]);
      assert p[|p| - 2] == 1;
    }
  }

  lemma CrowdDom(b: Label, x: Label)
    requires b < 4
    ensures Dom(GraphOf(Crowd()), x, b) <==> x == 0 || x == b || (b == 2 && x == 1)
  {
    hide Crowd, PathTo;
    var g := GraphOf(Crowd());
    CrowdPaths();
    OneBeforeTwo();
    EntryDominates(g, b);
    LeakExample.SelfDominates(g, b);
    assert b == 0 || b == 1 || b == 2 || b == 3;
  }

  lemma CrowdDoms(D: Doms)
    requires ExactDoms(GraphOf(Crowd()), D)
    ensures D == [0, 0, 1, 0]
  {
    hide Crowd, Dom;
    var g := GraphOf(Crowd());
    CrowdBlocks();
    forall b: Label | 0 < b < 4 ensures D[b] == if b == 2 then 1 else 0 {
      CrowdReach(b);
      CrowdIdom(b);
      IdomUnique(g, if b == 2 then 1 else 0, D[b], b);
    }
  }

  lemma CrowdIdom(b: Label)
    requires 0 < b < 4
    ensures IsIdom(GraphOf(Crowd()), if b == 2 then 1 else 0, b)
  {
    hide Crowd, Dom;
    var g := GraphOf(Crowd());
    var d: Label := if b == 2 then 1 else 0;
    CrowdDom(b, d);
    forall x: Label | Sdom(g, x, b) ensures Dom(g, x, d) {
      CrowdDom(b, x);
      CrowdDom(d, x);
    }
  }

  // No block is entered from two.
  lemma CrowdFrontier(x: Label, y: Label)
    requires x < 4
    ensures Shape(Crowd()) && |FrontierTable(Crowd())| == 4 && y !in FrontierTable(Crowd())[x]
  {
    hide Crowd, PredTable, FrontierTable, Edge, Reachable, Dom, Shape, GraphOf;
    var g := GraphOf(Crowd());
    CrowdShape();
    CrowdBlocks();
    CrowdEdges();
    CrowdReach(x);
    FrontierExact(g, PredTable(g), x, y);
    if 0 < y && InFrontier(g, x, y) {
      var a: Label :| Reachable(g, a) && Edge(g, a, y) && Dom(g, x, a) && !Sdom(g, x, y);
      CrowdDom(a, x);
      CrowdDom(y, x);
    }
  }

  lemma CrowdJoin(a: Reg)
    ensures Shape(Crowd()) && JoinBlocks(Crowd(), a) == {}
  {
    hide Crowd, Shape, FrontierTable, StoreBlocks;
    CrowdShape();
    CrowdBlocks();
    var f := Crowd();
    forall x: Label, y: Label | x < 4 ensures y !in FrontierTable(f)[x] { CrowdFrontier(x, y); }
    var none: set<Label> := {};
    assert |FrontierTable(f)| == 4;
    assert FrontierClosed(FrontierTable(f), StoreBlocks(f, a), none);
    forall y: Label ensures !InEveryClosed(FrontierTable(f), StoreBlocks(f, a), y) {
      assert y !in none;
    }
  }

  // ----- The slots -----

  lemma CrowdUses(b: Label, k: nat, a: Reg)
    requires b < 4 && 1 <= a <= 5
    ensures Shape(Crowd()) && |Crowd().blocks| == 4
    ensures k < |Crowd().blocks[b].body| ==>
              Crowd().blocks[b].body[k] < 17 && NodeCoherent(Crowd().nodes[Crowd().blocks[b].body[k]], {a})
    ensures a !in EndUses(Crowd().blocks[b].end)
  {
    hide Crowd, Shape;
    CrowdShape();
    CrowdBlocks();
    CrowdNodes();
    assert b == 0 || b == 1 || b == 2 || b == 3;
  }

  lemma CrowdPromotable(a: Reg)
    requires a < 17
    ensures Shape(Crowd()) && (Promotable(Crowd(), a) <==> 1 <= a <= 5)
  {
    hide Crowd, Shape, NodeCoherent, Verdict;
    var f := Crowd();
    CrowdShape();
    CrowdBlocks();
    CrowdNodes();
    if 1 <= a <= 5 {
      forall b: Label, k: nat | b < 4 && k < |f.blocks[b].body|
        ensures NodeCoherent(f.nodes[f.blocks[b].body[k]], {a})
      {
        CrowdUses(b, k, a);
      }
      forall b: Label, u | b < 4 && u in EndUses(f.blocks[b].end) ensures u !in {a} { CrowdUses(b, 0, a); }
      assert f.blocks[0].body[a + 5] == a + 6;
      assert IsAddressUse(f.nodes[f.blocks[0].body[a + 5]], a);
      PlainVerdict(f, a);
    } else {
      assert a == 0 || 6 <= a <= 16;
    }
  }

  lemma {:induction false} EntrySlots(k: nat)
    requires k <= 12
    ensures Shape(Crowd()) && |Crowd().blocks| == 4 && |Crowd().blocks[0].body| == 12
    ensures |SlotsTo(Crowd(), 0, k)| == if k < 5 then k else 5
    ensures forall v: nat :: v < k && v < 5 ==> SlotsTo(Crowd(), 0, k)[v] == v + 1
  {
    hide Crowd, Shape, Promotable;
    CrowdShape();
    CrowdBlocks();
    if k > 0 {
      EntrySlots(k - 1);
      CrowdPromotable(k);
    }
  }

  lemma {:induction false} NoSlots(f: Function, b: Label, k: nat)
    requires Shape(f) && b < |f.blocks| && k <= |f.blocks[b].body|
    requires forall i :: 0 <= i < k ==> !Promotable(f, f.blocks[b].body[i])
    ensures SlotsTo(f, b, k) == SlotsTo(f, b, 0)
  {
    hide Promotable;
    if k > 0 { NoSlots(f, b, k - 1); }
  }

  lemma EndSlots(f: Function, b: Label)
    requires Shape(f) && b < |f.blocks|
    ensures SlotsTo(f, b + 1, 0) == SlotsTo(f, b, |f.blocks[b].body|)
  {
  }

  lemma LaterSlots(b: Label)
    requires 0 < b < 4
    ensures Shape(Crowd()) && |Crowd().blocks| == 4 && SlotsTo(Crowd(), b + 1, 0) == SlotsTo(Crowd(), b, 0)
  {
    hide Crowd, Shape, Promotable, SlotsTo;
    var f := Crowd();
    CrowdShape();
    CrowdBlocks();
    forall i | 0 <= i < |f.blocks[b].body| ensures !Promotable(f, f.blocks[b].body[i]) {
      assert b == 1 || b == 2 || b == 3;
      CrowdPromotable(f.blocks[b].body[i]);
    }
    NoSlots(f, b, |f.blocks[b].body|);
    EndSlots(f, b);
  }

  lemma CrowdSlots()
    ensures Shape(Crowd()) && SlotList(Crowd()) == [1, 2, 3, 4, 5]
  {
    hide Crowd, Shape, SlotsTo;
    var f := Crowd();
    CrowdShape();
    CrowdBlocks();
    EntrySlots(12);
    EndSlots(f, 0);
    LaterSlots(1);
    LaterSlots(2);
    LaterSlots(3);
    assert SlotsTo(f, 0, 12) == [1, 2, 3, 4, 5];
  }

  // ----- The walk -----

  function CrowdSetup(): Setup
  {
    Setup(Crowd(), [1, 2, 3, 4, 5], map[], [0, 0, 1, 0], true)
  }

  lemma CrowdSetupOk()
    ensures SetupOk(CrowdSetup()) && |CrowdSetup().f.blocks| == 4
  {
    hide Crowd, Shape, Dom;
    CrowdShape();
    CrowdBlocks();
    var D := [0, 0, 1, 0];
    forall b: Label | 0 < b < 4 ensures IsIdom(GraphOf(Crowd()), D[b], b) && Reachable(GraphOf(Crowd()), b) {
      CrowdReach(b);
      CrowdIdom(b);
      assert D[b] == if b == 2 then 1 else 0;
    }
  }

  // A body that stores x to the slot at position i, and nothing else; or nothing at all.
  lemma {:induction false} BodyOnce(f: Function, lost: bool, a: Reg, b: Label, i: nat, x: Reg, k: nat, st: Stack)
    requires Shape(f) && b < |f.blocks| && k <= |f.blocks[b].body|
    requires forall j: nat :: j < |f.blocks[b].body| ==>
               PushedBy(f, lost, f.blocks[b].body[j], a) == if j == i then Some(x) else None
    ensures BodyStack(f, lost, a, b, k, st) == if k <= i then st else Put(st, x)
  {
    if k > 0 { BodyOnce(f, lost, a, b, i, x, k - 1, st); }
  }

  // Where block b stores to slot a.
  function Place(b: Label, a: Reg): nat
  {
    if b == 0 then a + 5 else if b == 1 && a == 1 then 1 else if b == 1 && a == 5 then 2 else 20
  }

  lemma CrowdStored(b: Label, a: Reg, j: nat)
    requires b < 3 && 1 <= a <= 5
    ensures Shape(Crowd()) && |Crowd().blocks| == 4
    ensures j < |Crowd().blocks[b].body| ==>
              Crowd().blocks[b].body[j] < 17 &&
              PushedBy(Crowd(), true, Crowd().blocks[b].body[j], a) ==
                if j == Place(b, a) then Some(if b == 0 then 6 else 13) else None
  {
    hide Crowd, Shape;
    CrowdShape();
    CrowdBlocks();
    CrowdNodes();
    assert b == 0 || b == 1 || b == 2;
  }

  lemma CrowdWorked(b: Label, w: Moment, v: nat)
    requires b < 3 && |w.stacks| == 5 && v < 5
    ensures Shape(Crowd()) && |Crowd().blocks| == 4
    ensures Worked(CrowdSetup(), b, w).stacks[v] ==
              if b == 0 then Put(w.stacks[v], 6)
              else if b == 1 && (v == 0 || v == 4) then Put(w.stacks[v], 13) else w.stacks[v]
    ensures Worked(CrowdSetup(), b, w).heights == Noted(w.heights, w.used, Entered(CrowdSetup(), b, w).stacks, 5)
    ensures Worked(CrowdSetup(), b, w).used == w.used + 4
    ensures Entered(CrowdSetup(), b, w).stacks[v] == w.stacks[v]
  {
    hide Crowd, Shape, Put, BodyStack;
    var f := Crowd();
    CrowdShape();
    CrowdBlocks();
    forall j: nat | j < |f.blocks[b].body|
      ensures f.blocks[b].body[j] < |f.nodes|
      ensures PushedBy(f, true, f.blocks[b].body[j], v + 1) ==
                if j == Place(b, v + 1) then Some(if b == 0 then 6 else 13) else None
    {
      CrowdNodes();
      CrowdStored(b, v + 1, j);
    }
    BodyOnce(f, true, v + 1, b, Place(b, v + 1), if b == 0 then 6 else 13, |f.blocks[b].body|, w.stacks[v]);
  }

  // Block 1 goes back to the height that block 2 noted for the first slot.
  lemma CrowdTop()
    ensures SetupOk(CrowdSetup()) && |CrowdSetup().f.blocks| == 4 && EntryTop(CrowdSetup(), 4, 3) == Some(13)
  {
    hide Crowd, SetupOk, Worked, Entered, Shape, CrowdSetup;
    CrowdSetupOk();
    CrowdShape();
    var s := CrowdSetup();
    CrowdSetupParts();
    var w0 := Worked(s, 0, Start(s));
    var w1 := Worked(s, 1, w0);
    var w2 := Worked(s, 2, w1);
    CrowdVisit(s, w0, w1, w2);
    CrowdMoments(w0, w1, w2);
  }

  lemma CrowdSetupParts()
    ensures CrowdSetup().f == Crowd() && |CrowdSetup().slots| == 5
  {
  }

  // The height of the last slot that block 1 notes is lost when block 2 notes that of the first.
  lemma CrowdMoments(w0: Moment, w1: Moment, w2: Moment)
    requires Shape(Crowd()) && |Crowd().blocks| == 4 && |w0.stacks| == |w1.stacks| == 5
    requires w0 == Worked(CrowdSetup(), 0, Start(CrowdSetup()))
    requires w1 == Worked(CrowdSetup(), 1, w0) && w2 == Worked(CrowdSetup(), 2, w1)
    ensures w0.used == 4 && w1.used == 8 && w2.stacks[4].data == [Some(6), Some(13)]
    ensures 8 in w2.heights && w2.heights[8] == 2
  {
    hide Crowd, Worked, Entered, Shape;
    CrowdWorked(0, Start(CrowdSetup()), 0);
    CrowdWorked(0, Start(CrowdSetup()), 4);
    CrowdWorked(1, w0, 0);
    CrowdWorked(1, w0, 4);
    CrowdWorked(2, w1, 0);
    CrowdWorked(2, w1, 4);
  }

  lemma CrowdVisit(s: Setup, w0: Moment, w1: Moment, w2: Moment)
    requires s == CrowdSetup() && SetupOk(s) && |s.f.blocks| == 4
    requires w0 == Worked(s, 0, Start(s)) && w1 == Worked(s, 1, w0) && w2 == Worked(s, 2, w1)
    ensures Entry(s, 3) == Left(s, w0.used, Left(s, w1.used, w2))
  {
    hide Crowd, SetupOk, Worked, Left;
    NoChild(s, 2, 4, w2);
    assert Visit(s, 2, w1) == Left(s, w1.used, w2);
    NoChild(s, 1, 2, w1);
    OneChildVisited(s, 1, 2, 4, w1);
    assert Visit(s, 1, w0) == Left(s, w0.used, Visit(s, 2, w1));
    OneChildVisited(s, 0, 1, 3, w0);
  }

  lemma {:induction false} NoChild(s: Setup, b: Label, n: nat, w: Moment)
    requires SetupOk(s) && b < |s.f.blocks| && n <= |s.f.blocks| && |w.stacks| == |s.slots|
    requires n <= |s.doms| && forall c: Label :: 0 < c < n ==> s.doms[c] != b
    ensures Children(s, b, n, w) == w
  {
    hide Visit, SetupOk;
    if n > 1 { NoChild(s, b, n - 1, w); }
  }

  lemma {:induction false} OneChildVisited(s: Setup, b: Label, c: Label, n: nat, w: Moment)
    requires SetupOk(s) && b < |s.f.blocks| && 0 < c < n <= |s.f.blocks| && |w.stacks| == |s.slots|
    requires n <= |s.doms| && forall e: Label :: 0 < e < n ==> (s.doms[e] == b <==> e == c)
    ensures Children(s, b, n, w) == Visit(s, c, w)
  {
    hide Visit, SetupOk;
    if n == c + 1 { NoChild(s, b, c, w); } else { OneChildVisited(s, b, c, n - 1, w); }
  }

  // ----- What the pass makes of it -----

  lemma CrowdPlan(junk: Reg, h: Function, pl: Plan, pre: seq<seq<Reg>>)
    requires PassResult(Crowd(), true, junk, h, pl, pre)
    ensures PlanOk(Crowd(), pl) && Rewritten(Crowd(), h, pl, pre) && ReadsExactly(Crowd(), h, pl, junk)
    ensures pl.slots == {1, 2, 3, 4, 5} && pl.phi == map[] && PassSetup(Crowd(), pl, true) == CrowdSetup()
    ensures AreEntryTops(CrowdSetup(), pl.tops)
  {
    hide Crowd, Shape, SlotList, PassResult, Rewritten, ReadsExactly, AreEntryTops, PlanOk, PhisExact;
    PassParts(Crowd(), true, junk, h, pl, pre);
    CrowdSlots();
    CrowdDoms(pl.doms);
    CrowdPhis(pl);
  }

  lemma CrowdPhis(pl: Plan)
    requires Shape(Crowd()) && PhisExact(Crowd(), pl)
    ensures pl.phi == map[]
  {
    hide Crowd, Shape, JoinBlocks;
    forall x | x in pl.phi ensures false {
      assert (x.0, x.1) in pl.phi;
      CrowdJoin(x.0);
    }
  }

  lemma RenamedNode(f: Function, h: Function, pl: Plan, pre: seq<seq<Reg>>, b: Label, k: nat)
    requires PlanOk(f, pl) && Rewritten(f, h, pl, pre) && b < |f.blocks| && k < |f.blocks[b].body|
    ensures |h.nodes| >= |f.nodes| && NodeRenamed(f, h.nodes, pl, b, k)
    ensures var r := f.blocks[b].body[k];
            match f.nodes[r]
            case Store(a, _) => h.nodes[r] == if a in pl.slots then Null else f.nodes[r]
            case Local => h.nodes[r] == if r in pl.slots then Null else f.nodes[r]
            case Pure(_, _) => h.nodes[r] == if r in pl.slots then Null else f.nodes[r]
            case _ => true
  {
    hide PlanOk, BlockRenamed, PhiRenamed, Def;
    assert NodeRenamed(f, h.nodes, pl, b, k);
  }

  lemma RenamedBlock(f: Function, h: Function, pl: Plan, pre: seq<seq<Reg>>, b: Label)
    requires PlanOk(f, pl) && Rewritten(f, h, pl, pre) && b < |f.blocks| && pl.phi == map[]
    ensures |h.blocks| == |f.blocks| && h.blocks[b] == f.blocks[b]
  {
    hide PlanOk, NodeRenamed, PhiRenamed;
    assert BlockRenamed(f, h, pl, pre, b);
    assert |pre[b]| > 0 ==> PlacedIn(pl, b, pre[b][0]);
    assert [] + f.blocks[b].body == f.blocks[b].body;
  }

  lemma CrowdDef(junk: Reg, h: Function, pl: Plan, pre: seq<seq<Reg>>)
    requires PassResult(Crowd(), true, junk, h, pl, pre)
    ensures PlanOk(Crowd(), pl) && |Crowd().blocks| == 4 && Def(Crowd(), pl, 5, 3, 0) == Some(13)
  {
    hide Crowd, PassResult, EntryTop, Rewritten, PlanOk, ReadsExactly, SetupOk;
    CrowdPlan(junk, h, pl, pre);
    CrowdTop();
    CrowdBlocks();
    assert CrowdSetup().slots[4] == 5;
    assert pl.tops[(5, 3)] == Some(13);
  }

  lemma CrowdRead(junk: Reg, h: Function, pl: Plan, pre: seq<seq<Reg>>)
    requires PassResult(Crowd(), true, junk, h, pl, pre)
    ensures |h.nodes| >= 17 && h.nodes[16] == Pass(13)
  {
    hide Crowd, PassResult, Rewritten, PlanOk, ReadsExactly, Def, CrowdSetup, AreEntryTops, PassSetup, Shape, Placed;
    CrowdPlan(junk, h, pl, pre);
    CrowdDef(junk, h, pl, pre);
    CrowdBlocks();
    CrowdNodes();
    RenamedNode(Crowd(), h, pl, pre, 3, 0);
  }

  lemma CrowdNode(junk: Reg, h: Function, pl: Plan, pre: seq<seq<Reg>>, k: nat)
    requires PassResult(Crowd(), true, junk, h, pl, pre) && k < 12
    ensures |h.nodes| >= 17 && h.nodes[k + 1] == if k == 5 || k == 11 then Crowd().nodes[k + 1] else Null
    ensures |Crowd().nodes| == 17
  {
    hide Crowd, PassResult, Rewritten, PlanOk, ReadsExactly, NodeRenamed, CrowdSetup, AreEntryTops, PassSetup;
    CrowdPlan(junk, h, pl, pre);
    CrowdBlocks();
    CrowdNodes();
    RenamedNode(Crowd(), h, pl, pre, 0, k);
  }

  lemma CrowdBlock(junk: Reg, h: Function, pl: Plan, pre: seq<seq<Reg>>, b: Label)
    requires PassResult(Crowd(), true, junk, h, pl, pre) && b < 4
    ensures |h.blocks| == |Crowd().blocks| == 4 && h.blocks[b] == Crowd().blocks[b]
  {
    hide Crowd, PassResult, Rewritten, PlanOk, ReadsExactly, CrowdSetup, AreEntryTops;
    CrowdPlan(junk, h, pl, pre);
    CrowdBlocks();
    RenamedBlock(Crowd(), h, pl, pre, b);
  }

  // ----- Runs -----

  // The nodes that the run through blocks 0 and 3 uses, before and after.
  ghost predicate Before(h: Function)
  {
    h.nodes == Crowd().nodes && h.blocks == Crowd().blocks
  }

  ghost predicate After(h: Function)
  {
    && |h.nodes| >= 17 && h.nodes[16] == Pass(13) && |h.blocks| == 4
    && (forall r: Reg :: 1 <= r <= 12 ==> h.nodes[r] == if r == 6 || r == 12 then Crowd().nodes[r] else Null)
    && h.blocks[0] == Crowd().blocks[0] && h.blocks[3] == Crowd().blocks[3]
  }

  // What is known of the state after k nodes of block 0.
  ghost predicate EntryState(slots: set<Reg>, k: nat, st: State<int, ()>)
  {
    && 13 !in st.regs && (k >= 6 ==> 6 in st.regs && st.regs[6] == 10)
    && (k >= 12 ==> 12 in st.regs && st.regs[12] == 0)
    && (slots != {} && k >= 11 ==> 5 in st.slots && st.slots[5] == 10)
  }

  // Node k of block 0.
  lemma EntryNode(h: Function, slots: set<Reg>, k: nat, st: State<int, ()>)
    requires if slots == {} then After(h) else slots == {1, 2, 3, 4, 5} && Before(h)
    requires 1 <= k <= 12 && EntryState(slots, k - 1, st)
    ensures k < |h.nodes| && EntryState(slots, k, ExecNode(LeakExample.Numbers(), slots, k, h.nodes[k], st))
  {
    hide Crowd;
    CrowdBlocks();
    CrowdNodes();
    if 1 <= k <= 5 { assert slots != {} ==> h.nodes[k] == Local; }
    if 7 <= k <= 11 { assert slots != {} ==> h.nodes[k] == Store(k - 6, 6); }
  }

  lemma {:induction false} EntryBody(h: Function, slots: set<Reg>, k: nat)
    requires if slots == {} then After(h) else slots == {1, 2, 3, 4, 5} && Before(h)
    requires k <= 12
    ensures |h.blocks| == 4 && |h.blocks[0].body| == 12 && forall i :: 0 <= i < 12 ==> h.blocks[0].body[i] < |h.nodes|
    ensures EntryState(slots, k,
                       ExecBody(LeakExample.Numbers(), slots, h, h.blocks[0].body, k, State(map[], map[], ())))
  {
    hide Crowd, ExecNode, Before, After;
    EntryShape(h, slots);
    if k > 0 {
      hide EntryState;
      EntryBody(h, slots, k - 1);
      EntryNode(h, slots, k,
                ExecBody(LeakExample.Numbers(), slots, h, h.blocks[0].body, k - 1, State(map[], map[], ())));
    }
  }

  lemma EntryShape(h: Function, slots: set<Reg>)
    requires if slots == {} then After(h) else slots == {1, 2, 3, 4, 5} && Before(h)
    ensures |h.blocks| == 4 && |h.blocks[0].body| == 12
    ensures forall i :: 0 <= i < 12 ==> h.blocks[0].body[i] == i + 1 < |h.nodes|
  {
    hide Crowd;
    CrowdBlocks();
    CrowdNodes();
  }

  lemma NoPhis(h: Function, slots: set<Reg>, b: Label)
    requires if slots == {} then After(h) else Before(h)
    requires b == 0 || b == 3
    ensures |h.blocks| == 4 && forall r :: r in h.blocks[b].body ==> r < |h.nodes| && !h.nodes[r].Phi?
  {
    hide Crowd;
    CrowdBlocks();
    CrowdNodes();
    forall r | r in h.blocks[b].body ensures r < |h.nodes| && !h.nodes[r].Phi? {
      var k: nat :| k < |h.blocks[b].body| && h.blocks[b].body[k] == r;
      assert b == 0 ==> r == k + 1;
    }
  }

  // Block 0 goes to block 3.
  lemma CrowdEntry(h: Function, slots: set<Reg>) returns (st: State<int, ()>)
    requires Shape(h) && if slots == {} then After(h) else slots == {1, 2, 3, 4, 5} && Before(h)
    ensures EntryState(slots, 12, st) && Run(LeakExample.Numbers(), slots, h, (), 1) == At(3, 0, st)
  {
    hide Shape, EnterBlock, ExecBody, Crowd;
    CrowdBlocks();
    var st0: State<int, ()> := State(map[], map[], ());
    EntryBody(h, slots, 12);
    NoPhis(h, slots, 0);
    LeakExample.PlainEntry(h, h.blocks[0].body, 4, st0);
    st := ExecBody(LeakExample.Numbers(), slots, h, h.blocks[0].body, 12, st0);
    StepIs(LeakExample.Numbers(), slots, h, At(0, 4, st0), st0, st);
  }

  lemma CrowdExit(h: Function, slots: set<Reg>, st: State<int, ()>)
    requires Shape(h) && if slots == {} then After(h) else slots == {1, 2, 3, 4, 5} && Before(h)
    requires EntryState(slots, 12, st)
    ensures var c := Step(LeakExample.Numbers(), slots, h, At(3, 0, st));
            c.Halted? && c.outcome == Returned(if slots == {} then 0 else 10)
  {
    hide Shape, EnterBlock, Crowd;
    CrowdBlocks();
    CrowdNodes();
    NoPhis(h, slots, 3);
    LeakExample.PlainEntry(h, h.blocks[3].body, 0, st);
    assert ExecBody(LeakExample.Numbers(), slots, h, h.blocks[3].body, 0, st) == st;
    StepIs(LeakExample.Numbers(), slots, h, At(3, 0, st), st,
           ExecBody(LeakExample.Numbers(), slots, h, h.blocks[3].body, 1, st));
  }

  lemma CrowdRun(h: Function, slots: set<Reg>)
    requires Shape(h) && if slots == {} then After(h) else slots == {1, 2, 3, 4, 5} && Before(h)
    ensures var c := Run(LeakExample.Numbers(), slots, h, (), 2);
            c.Halted? && c.outcome == Returned(if slots == {} then 0 else 10)
  {
    hide Shape, Step, Crowd, After, Before, EntryState;
    var st := CrowdEntry(h, slots);
    CrowdExit(h, slots, st);
  }

  // The theorem: the function returns 10, whatever the pass as it is written makes of it returns
  // the register that block 1 would have set; there is no phi, and nothing is left in the way.
  lemma CrowdBreaksRuns(junk: Reg, h: Function, pl: Plan, pre: seq<seq<Reg>>)
    requires PassResult(Crowd(), true, junk, h, pl, pre)
    ensures Shape(Crowd()) && Shape(h) && LeakFree(Crowd()) && |SlotList(Crowd())| == 5 && |Crowd().blocks| == 4
    ensures Run(LeakExample.Numbers(), {1, 2, 3, 4, 5}, Crowd(), (), 2).Halted?
    ensures Run(LeakExample.Numbers(), {1, 2, 3, 4, 5}, Crowd(), (), 2).outcome == Returned(10)
    ensures Run(LeakExample.Numbers(), {}, h, (), 2).Halted?
    ensures Run(LeakExample.Numbers(), {}, h, (), 2).outcome == Returned(0)
  {
    CrowdParts(junk, h, pl, pre);
    hide Crowd, Shape, PassResult, Run, LeakFree, SlotList;
    CrowdBlocks();
    CrowdSlots();
    CrowdRun(Crowd(), {1, 2, 3, 4, 5});
    CrowdRun(h, {});
  }

  lemma CrowdParts(junk: Reg, h: Function, pl: Plan, pre: seq<seq<Reg>>)
    requires PassResult(Crowd(), true, junk, h, pl, pre)
    ensures Shape(Crowd()) && Shape(h) && Before(Crowd()) && After(h) && LeakFree(Crowd())
  {
    hide Crowd, PassResult, Rewritten, PlanOk, ReadsExactly, JoinBlocks, Shape, AreEntryTops, ExactDoms, PhisExact;
    CrowdNodes();
    PassParts(Crowd(), true, junk, h, pl, pre);
    CrowdRead(junk, h, pl, pre);
    CrowdBlock(junk, h, pl, pre, 0);
    CrowdBlock(junk, h, pl, pre, 3);
    forall a: Reg ensures JoinBlocks(Crowd(), a) == {} { CrowdJoin(a); }
    forall r: Reg | 1 <= r <= 12 ensures h.nodes[r] == if r == 6 || r == 12 then Crowd().nodes[r] else Null {
      CrowdNode(junk, h, pl, pre, r - 1);
    }
  }

  // ----- The pass does get that far -----

  lemma CrowdIsReady()
    ensures Ready(Crowd()) && FrontiersEnd(GraphOf(Crowd()))
  {
    hide Crowd, Shape, PhiFree, FrontiersEnd;
    var f := Crowd();
    CrowdPhiFree();
    CrowdShape();
    CrowdBlocks();
    forall b: Label | b < 4 ensures BlockDominated(f, b) {
      forall k: nat | k < |f.blocks[b].body| ensures NodeDominated(f, b, k) { CrowdFits(b, k); }
      CrowdFits(b, 0);
    }
    forall b: Label | b < |GraphOf(f)| ensures Reachable(GraphOf(f), b) { CrowdReach(b); }
    ReachableFrontiersEnd(GraphOf(f));
  }

  lemma CrowdPhiFree()
    ensures PhiFree(Crowd(), [])
  {
    hide Crowd, Shape;
    var f := Crowd();
    CrowdShape();
    CrowdBlocks();
    CrowdNodes();
    forall b: Label, k: nat, a: Reg | b < 4 && k < |f.blocks[b].body| ensures StoredFits(f, b, k, a) {
      assert b == 0 || b == 1 || b == 3;
    }
  }

  // What block 0 defines is there everywhere else.
  lemma CrowdDefined(r: Reg, b: Label, k: nat)
    requires 1 <= r <= 12 && b < 4
    ensures |Crowd().blocks| == 4
    ensures k <= |Crowd().blocks[b].body| && (b == 0 ==> r <= k) ==> DefinedBefore(Crowd(), r, b, k)
  {
    hide Crowd, Dom;
    var f := Crowd();
    CrowdBlocks();
    assert f.blocks[0].body[r - 1] == r;
    if b == 0 {
      if r <= k <= 12 { assert f.blocks[0].body[..k][r - 1] == r; }
    } else {
      EntryDominates(GraphOf(f), b);
      assert Sdom(GraphOf(f), 0, b);
    }
  }

  lemma CrowdFits(b: Label, k: nat)
    requires b < 4
    ensures Shape(Crowd()) && |Crowd().blocks| == 4
    ensures k < |Crowd().blocks[b].body| ==> NodeDominated(Crowd(), b, k)
    ensures forall u :: u in EndUses(Crowd().blocks[b].end) ==> DefinedBefore(Crowd(), u, b, |Crowd().blocks[b].body|)
  {
    hide Crowd, Shape, DefinedBefore;
    var f := Crowd();
    CrowdShape();
    CrowdBlocks();
    CrowdNodes();
    CrowdOwn();
    forall r: Reg | 1 <= r <= 12 ensures k <= |f.blocks[b].body| && (b == 0 ==> r <= k) ==> DefinedBefore(f, r, b, k) {
      CrowdDefined(r, b, k);
    }
    CrowdDefined(12, 0, 12);
    assert b == 0 || b == 1 || b == 2 || b == 3;
  }

  lemma CrowdOwn()
    ensures |Crowd().blocks| == 4 && |Crowd().blocks[1].body| == 3 && |Crowd().blocks[3].body| == 1
    ensures DefinedBefore(Crowd(), 13, 1, 1) && DefinedBefore(Crowd(), 13, 1, 2) && DefinedBefore(Crowd(), 16, 3, 1)
  {
    hide Crowd;
    var f := Crowd();
    CrowdBlocks();
    assert f.blocks[1].body[..1] == [13] && f.blocks[1].body[..2] == [13, 14] && f.blocks[3].body[..1] == [16];
  }

  lemma CrowdSupported()
    ensures WellFormed(GraphOf(Crowd())) && !Unsupported(GraphOf(Crowd()))
  {
    hide Crowd, Edge, WellFormed, Unsupported;
    CrowdBlocks();
    CrowdEdges();
    OneWaySupported(GraphOf(Crowd()));
  }

  // Every load comes after a store.
  lemma CrowdStoresFirst()
    ensures Shape(Crowd()) && LoadsInitialised(Crowd(), {1, 2, 3, 4, 5})
  {
    hide Crowd, Shape, Edge, HasStore, Reachable;
    var f := Crowd();
    CrowdShape();
    CrowdBlocks();
    CrowdNodes();
    CrowdHasStore();
    forall p | PathTo(GraphOf(f), p, 3) ensures PassesStore(f, 5, p) {
      assert HasStore(f, 5, p[0]);
    }
    assert StoredBefore(f, 5, 3, 0);
    forall b: Label, k: nat | b < 4 && k < |f.blocks[b].body|
      ensures f.blocks[b].body[k] < 17 && (f.nodes[f.blocks[b].body[k]].Load? ==> b == 3 && k == 0)
    {
      assert b == 0 || b == 1 || b == 3;
    }
  }

  lemma CrowdHasStore()
    ensures HasStore(Crowd(), 5, 0)
  {
    hide Crowd;
    CrowdBlocks();
    CrowdNodes();
    assert Crowd().blocks[0].body[10] == 11;
  }

  // The pass as it is written turns the function into one that returns something else.
  method CrowdFails(junk: Reg) returns (h: Function)
    ensures Shape(Crowd()) && Shape(h) && LoadsInitialised(Crowd(), {1, 2, 3, 4, 5})
    ensures Run(LeakExample.Numbers(), {1, 2, 3, 4, 5}, Crowd(), (), 2).Halted?
    ensures Run(LeakExample.Numbers(), {1, 2, 3, 4, 5}, Crowd(), (), 2).outcome == Returned(10)
    ensures Run(LeakExample.Numbers(), {}, h, (), 2).Halted?
    ensures Run(LeakExample.Numbers(), {}, h, (), 2).outcome == Returned(0)
  {
    hide Crowd, Ready, FrontiersEnd, Run, PassResult, Unsupported, LoadsInitialised, LeakFree, SlotList, Shape;
    CrowdIsReady();
    CrowdSupported();
    CrowdStoresFirst();
    CrowdSlots();
    assert 1 in SlotsOf(Crowd());
    var r := PromoteSlots(Crowd(), true, junk);
    h := r.value;
    ghost var pl: Plan, pre: seq<seq<Reg>> :| PassResult(Crowd(), true, junk, h, pl, pre);
    CrowdBreaksRuns(junk, h, pl, pre);
  }
}
