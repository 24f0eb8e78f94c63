// A function that src/tb/opt/mem2reg.c:475 changes: the memset of a slot becomes a constant before
// the case at line 168 can push it.

module ClearExample {
  import opened Cfg
  import opened Predecessors
  import opened Ir
  import opened Ssa
  import opened Promotion
  import opened PhiInsertion
  import opened Coherency
  import opened Dominators
  import opened StackWalk
  import opened PlacedPhis
  import opened Mem2Reg

  // x = 7; set 8 bytes of x to zero; return x
  function Wiped(): Function
  {
    Function([Null, Local, Pure(7, []), Store(1, 2), Pure(ZERO, []), Pure(8, []), Clear(1, 4, 5), Load(1)],
             [Block([1, 2, 3, 4, 5, 6, 7], Return(7))], Typing(map[3 := 64, 6 := 64, 7 := 64], {}))
  }

  // The world is the memory of the slot.
  function Cell(): Sem<int, int>
  {
    Sem((op: nat, _: seq<int>) => op, (op: nat, _: seq<int>, w: int) => (op, w), (_: Reg) => 0,
        (_: Reg, _: int, w: int) => (0, w), (_: Reg, _: int, w: int) => (w, w), (_: Reg, _: int, v: int, _: int) => v,
        (_: Reg, _: int, _: int) => 0, (v: int) => v != 0, (v: int) => v, 0)
  }

  lemma WipedParts()
    ensures |Wiped().nodes| == 8 && |Wiped().blocks| == 1
    ensures Wiped().blocks[0] == Block([1, 2, 3, 4, 5, 6, 7], Return(7))
    ensures Wiped().nodes[0] == Null && Wiped().nodes[1] == Local && Wiped().nodes[2] == Pure(7, [])
    ensures Wiped().nodes[3] == Store(1, 2) && Wiped().nodes[4] == Pure(ZERO, []) && Wiped().nodes[5] == Pure(8, [])
    ensures Wiped().nodes[6] == Clear(1, 4, 5) && Wiped().nodes[7] == Load(1)
    ensures Wiped().types == Typing(map[3 := 64, 6 := 64, 7 := 64], {})
  {
  }

  lemma WipedShape()
    ensures GraphOf(Wiped()) == [Return(7)] && Shape(Wiped())
  {
    hide Wiped;
    WipedParts();
    assert GraphOf(Wiped()) == [Return(7)];
    var f := Wiped();
    assert forall k: nat :: k < 7 ==> f.blocks[0].body[k] == k + 1;
  }

  lemma WipedFirst()
    requires Shape(Wiped())
    ensures OnlyAddresses(Wiped(), {1}) && FirstAccess(Wiped(), 1, 1, 0) == Some(3)
  {
    hide Wiped, Shape;
    WipedParts();
    var f := Wiped();
    assert FirstAccess(f, 1, 0, 2).None? && FirstAccess(f, 1, 0, 3) == Some(3);
    assert FirstAccess(f, 1, 0, 5) == Some(3) && FirstAccess(f, 1, 0, 7) == Some(3);
    forall b: Label, k: nat | b < 1 && k < 7 ensures NodeCoherent(f.nodes[f.blocks[b].body[k]], {1}) {
      assert k == 0 || k == 1 || k == 2 || k == 3 || k == 4 || k == 5 || k == 6;
    }
  }

  lemma WipedGood()
    ensures Shape(Wiped()) && Verdict(Wiped(), Wiped().types, 1) == Good
  {
    hide Wiped, Shape, OnlyAddresses, FirstAccess, Verdict, Accessed;
    WipedParts();
    WipedShape();
    WipedFirst();
    var f := Wiped();
    GoodIff(f, f.types, 1);
    forall c: Label, j: nat | Before(f, c, j, 1, 0) && IsClear(f.nodes[f.blocks[c].body[j]], 1)
      ensures Bits(f.types, f.blocks[c].body[j]) == 64
    {
      assert j == 0 || j == 1 || j == 2 || j == 3 || j == 4 || j == 5 || j == 6;
    }
  }

  // ----- What the pass asks of a function -----

  lemma WipedFits()
    ensures Shape(Wiped()) && PhiFree(Wiped(), [])
  {
    hide Wiped, Shape;
    WipedParts();
    WipedShape();
    var f := Wiped();
    forall k: nat, a: Reg | k < 7 ensures StoredFits(f, 0, k, a) {
      assert k == 0 || k == 1 || k == 2 || k == 3 || k == 4 || k == 5 || k == 6;
    }
  }

  // Node k has register k + 1.
  lemma WipedDefined(u: Reg, k: nat)
    requires 0 < u <= k <= 7
    ensures DefinedBefore(Wiped(), u, 0, k)
  {
    hide Wiped;
    WipedParts();
    assert Wiped().blocks[0].body[..k][u - 1] == u;
  }

  lemma WipedReady()
    ensures Shape(Wiped()) && Ready(Wiped())
  {
    hide Wiped, Shape, PhiFree, DefinedBefore;
    WipedFits();
    WipedParts();
    var f := Wiped();
    forall k: nat | k < 7 ensures NodeDominated(f, 0, k) {
      forall u | u in Uses(f.nodes[f.blocks[0].body[k]]) ensures 0 < u <= k && DefinedBefore(f, u, 0, k) {
        assert k == 0 || k == 1 || k == 2 || k == 3 || k == 4 || k == 5 || k == 6;
        WipedDefined(u, k);
      }
      assert k == 0 || k == 1 || k == 2 || k == 3 || k == 4 || k == 5 || k == 6;
    }
    WipedDefined(7, 7);
  }

  lemma WipedSlots()
    ensures Shape(Wiped()) && SlotsOf(Wiped()) == {1}
  {
    hide Wiped, Shape, SlotsOf, Verdict;
    WipedParts();
    WipedGood();
    var f := Wiped();
    assert Promotable(f, 1) && f.blocks[0].body[0] == 1;
    forall a | a in SlotsOf(f) ensures a == 1 {
      assert a == 0 || a == 1 || a == 2 || a == 3 || a == 4 || a == 5 || a == 6 || a == 7;
    }
  }

  lemma WipedSupported()
    ensures WellFormed(GraphOf(Wiped())) && !Unsupported(GraphOf(Wiped())) && FrontiersEnd(GraphOf(Wiped()))
  {
    hide Wiped, Unsupported, FrontiersEnd;
    WipedShape();
    var g := GraphOf(Wiped());
    assert Targets(g[0]) == [];
    EntryReachable(g);
    ReachableFrontiersEnd(g);
    OneWaySupported(g);
  }

  // ----- What becomes of it -----

  // The stack of the slot shows the stored register; as meant, the zero is on top of it.
  lemma WipedDef(asWritten: bool, pl: Plan)
    requires PlanOk(Wiped(), pl) && pl.lost == asWritten
    ensures |Wiped().blocks| == 1 && |Wiped().blocks[0].body| == 7
    ensures Def(Wiped(), pl, 1, 0, 6) == Some(if asWritten then 2 else 6)
  {
    hide Wiped, Shape, ExactDoms;
    WipedParts();
    var f := Wiped();
    assert Def(f, pl, 1, 0, 3) == Some(2);
    assert Def(f, pl, 1, 0, 4) == Some(2);
    assert Def(f, pl, 1, 0, 5) == Some(2);
  }

  // The nodes of the result.
  ghost predicate After(h: Function, top: Reg)
  {
    && |h.nodes| >= 8 && h.blocks == Wiped().blocks
    && h.nodes[1] == Null && h.nodes[2] == Pure(7, []) && h.nodes[3] == Null && h.nodes[4] == Pure(ZERO, [])
    && h.nodes[5] == Pure(8, []) && h.nodes[6] == Pure(ZERO, []) && h.nodes[7] == Pass(top)
  }

  lemma WipedAfter(asWritten: bool, junk: Reg, h: Function)
    requires Promoted(Wiped(), asWritten, junk, h)
    ensures Shape(h) && After(h, if asWritten then 2 else 6)
  {
    hide Wiped, Shape, PlanOk, PhisExact, AreEntryTops, SlotsOf, PassSetup, ReadsExactly, Rewritten;
    var f := Wiped();
    var pl: Plan, pre: seq<seq<Reg>> :| PassResult(f, asWritten, junk, h, pl, pre);
    PassParts(f, asWritten, junk, h, pl, pre);
    WipedBlock(h, pl, pre);
    WipedNodes(asWritten, h, pl, pre);
  }

  lemma WipedNodes(asWritten: bool, h: Function, pl: Plan, pre: seq<seq<Reg>>)
    requires PlanOk(Wiped(), pl) && pl.slots == SlotsOf(Wiped()) && pl.lost == asWritten
    requires Rewritten(Wiped(), h, pl, pre) && h.blocks == Wiped().blocks
    ensures After(h, if asWritten then 2 else 6)
  {
    hide Wiped, Shape, ExactDoms, Def, SlotsOf, BlockRenamed, WellFormed;
    var f := Wiped();
    WipedParts();
    WipedSlots();
    WipedDef(asWritten, pl);
    assert NodeRenamed(f, h.nodes, pl, 0, 0) && NodeRenamed(f, h.nodes, pl, 0, 1) && NodeRenamed(f, h.nodes, pl, 0, 2);
    assert NodeRenamed(f, h.nodes, pl, 0, 3) && NodeRenamed(f, h.nodes, pl, 0, 4) && NodeRenamed(f, h.nodes, pl, 0, 5);
    assert NodeRenamed(f, h.nodes, pl, 0, 6);
  }

  lemma WipedBlock(h: Function, pl: Plan, pre: seq<seq<Reg>>)
    requires PlanOk(Wiped(), pl) && Rewritten(Wiped(), h, pl, pre)
    ensures h.blocks == Wiped().blocks
  {
    hide Wiped, Shape, ExactDoms, NodeRenamed;
    WipedParts();
    assert BlockRenamed(Wiped(), h, pl, pre, 0);
    assert |pre[0]| > 0 ==> PlacedIn(pl, 0, pre[0][0]);
    assert [] + Wiped().blocks[0].body == Wiped().blocks[0].body;
  }

  // ----- Runs -----

  lemma WipedPlain(h: Function, r: Reg)
    requires h == Wiped() || After(h, 2) || After(h, 6)
    requires 1 <= r <= 7
    ensures r < |h.nodes| && !h.nodes[r].Phi?
  {
    hide Wiped;
    WipedParts();
    assert r == 1 || r == 2 || r == 3 || r == 4 || r == 5 || r == 6 || r == 7;
  }

  lemma WipedEnter(h: Function)
    requires h.blocks == Wiped().blocks && (h == Wiped() || After(h, 2) || After(h, 6))
    ensures |h.blocks| == 1 && |h.blocks[0].body| == 7
    ensures var st: State<int, int> := State(map[], map[], 0); EnterBlock(Cell(), h, h.blocks[0].body, 1, st) == st
  {
    hide Wiped, After, Cell, IsPhiAt;
    WipedParts();
    var st: State<int, int> := State(map[], map[], 0);
    forall r: Reg | r in h.blocks[0].body ensures !IsPhiAt(h, h.blocks[0].body, r) {
      WipedNoPhi(h, r);
    }
    assert PhiMoves(Cell(), h, h.blocks[0].body, 1, st) == map[] && st.regs + map[] == st.regs;
  }

  lemma WipedNoPhi(h: Function, r: Reg)
    requires h.blocks == Wiped().blocks && (h == Wiped() || After(h, 2) || After(h, 6))
    ensures |h.blocks| == 1 && !IsPhiAt(h, h.blocks[0].body, r)
  {
    hide Wiped, After;
    WipedParts();
    if 1 <= r <= 7 { WipedPlain(h, r); }
  }

  lemma BeforeBody(slots: set<Reg>)
    requires Shape(Wiped()) && (slots == {} || slots == {1})
    ensures |Wiped().blocks| == 1 && |Wiped().blocks[0].body| == 7
    ensures Val(Cell(), ExecBody(Cell(), slots, Wiped(), Wiped().blocks[0].body, 7, State(map[], map[], 0)), 7) == 0
  {
    hide Wiped, Shape;
    WipedParts();
    var f, sem, body := Wiped(), Cell(), Wiped().blocks[0].body;
    var st: State<int, int> := State(map[], map[], 0);
    var s6 := ExecBody(sem, slots, f, body, 6, st);
    var s5 := ExecBody(sem, slots, f, body, 5, st);
    assert s6 == ExecNode(sem, slots, 6, f.nodes[6], s5);
    assert if slots == {} then s6.world == 0 else 1 in s6.slots && s6.slots[1] == 0;
  }

  // What is known after k nodes of the result.
  ghost predicate Held(k: nat, top: Reg, st: State<int, int>)
  {
    && (k >= 2 ==> 2 in st.regs && st.regs[2] == 7) && (k >= 6 ==> 6 in st.regs && st.regs[6] == 0)
    && (k >= 7 ==> 7 in st.regs && st.regs[7] == if top == 2 then 7 else 0)
  }

  lemma NodeHeld(h: Function, top: Reg, k: nat, st: State<int, int>)
    requires After(h, top) && (top == 2 || top == 6) && 1 <= k <= 7 && Held(k - 1, top, st)
    ensures Held(k, top, ExecNode(Cell(), {}, k, h.nodes[k], st))
  {
    hide Wiped;
    assert k == 1 || k == 2 || k == 3 || k == 4 || k == 5 || k == 6 || k == 7;
  }

  lemma {:induction false} AfterBody(h: Function, top: Reg, k: nat)
    requires After(h, top) && (top == 2 || top == 6) && k <= 7
    ensures |h.blocks| == 1 && |h.blocks[0].body| == 7 && forall i :: 0 <= i < 7 ==> h.blocks[0].body[i] < |h.nodes|
    ensures Held(k, top, ExecBody(Cell(), {}, h, h.blocks[0].body, k, State(map[], map[], 0)))
  {
    hide Wiped, Cell, ExecNode;
    WipedParts();
    if k > 0 {
      assert h.blocks[0].body[k - 1] == k;
      AfterBody(h, top, k - 1);
      NodeHeld(h, top, k, ExecBody(Cell(), {}, h, h.blocks[0].body, k - 1, State(map[], map[], 0)));
    }
  }

  lemma OneBlock(h: Function, slots: set<Reg>, x: int)
    requires Shape(h) && h.blocks == Wiped().blocks && (h == Wiped() || After(h, 2) || After(h, 6))
    requires |h.blocks[0].body| == 7 ==>
      Val(Cell(), ExecBody(Cell(), slots, h, h.blocks[0].body, 7, State(map[], map[], 0)), 7) == x
    ensures Run(Cell(), slots, h, 0, 1).Halted? && Run(Cell(), slots, h, 0, 1).outcome == Returned(x)
  {
    hide Wiped, Shape, ExecBody, EnterBlock;
    WipedParts();
    WipedEnter(h);
    assert Run(Cell(), slots, h, 0, 0) == At(0, 1, State(map[], map[], 0));
  }

  // The theorem: the function returns 0, with its slot in memory or apart; what the pass makes of it
  // returns 7 as written and 0 as meant.
  lemma ClearBreaksRuns(asWritten: bool, junk: Reg, h: Function)
    requires Promoted(Wiped(), asWritten, junk, h)
    ensures Shape(Wiped()) && Shape(h)
    ensures forall slots: set<Reg> :: slots == {} || slots == {1} ==>
              Run(Cell(), slots, Wiped(), 0, 1).Halted? && Run(Cell(), slots, Wiped(), 0, 1).outcome == Returned(0)
    ensures Run(Cell(), {}, h, 0, 1).Halted?
    ensures Run(Cell(), {}, h, 0, 1).outcome == Returned(if asWritten then 7 else 0)
  {
    hide Wiped, Shape, Run, ExecBody;
    WipedShape();
    forall slots: set<Reg> | slots == {} || slots == {1}
      ensures Run(Cell(), slots, Wiped(), 0, 1).Halted? && Run(Cell(), slots, Wiped(), 0, 1).outcome == Returned(0)
    {
      BeforeBody(slots);
      OneBlock(Wiped(), slots, 0);
    }
    WipedAfter(asWritten, junk, h);
    AfterBody(h, if asWritten then 2 else 6, 7);
    OneBlock(h, {}, if asWritten then 7 else 0);
  }

  // The pass, called on it.
  method ClearFails(asWritten: bool, junk: Reg) returns (h: Function)
    ensures Shape(Wiped()) && Shape(h)
    ensures Run(Cell(), {}, Wiped(), 0, 1).Halted? && Run(Cell(), {}, Wiped(), 0, 1).outcome == Returned(0)
    ensures Run(Cell(), {}, h, 0, 1).Halted?
    ensures Run(Cell(), {}, h, 0, 1).outcome == Returned(if asWritten then 7 else 0)
  {
    hide Wiped, Shape, Ready, FrontiersEnd, Run, Unsupported, Promoted, SlotsOf, Cell;
    WipedReady();
    WipedSlots();
    WipedSupported();
    assert 1 in SlotsOf(Wiped());
    var r := PromoteSlots(Wiped(), asWritten, junk);
    h := r.value;
    ClearBreaksRuns(asWritten, junk, h);
  }
}
