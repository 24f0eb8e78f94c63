// A function that src/tb/opt/mem2reg.c:639 lets through: a slot that is stored to with 64 bits and
// loaded with 8.

module MixedExample {
  import opened Cfg
  import opened Predecessors
  import opened Ir
  import opened Ssa
  import opened Promotion
  import opened PhiInsertion
  import opened Coherency
  import opened DomTree
  import opened Dominators
  import opened PlacedPhis
  import opened Leak
  import opened Mem2Reg

  // x = 261; store 64 bits of x; load 8 bits; return them
  function Mixed(): Function
  {
    Function([Null, Local, Pure(261, []), Store(1, 2), Load(1)], [Block([1, 2, 3, 4], Return(4))],
             Typing(map[3 := 64, 4 := 8], {}))
  }

  // The world is the memory of the slot; register 4 loads its lowest byte.
  function Bytes(): Sem<int, int>
  {
    Sem((op: nat, _: seq<int>) => op, (op: nat, _: seq<int>, w: int) => (op, w), (_: Reg) => 0,
        (_: Reg, _: int, w: int) => (0, w), (r: Reg, _: int, w: int) => (if r == 4 then w % 256 else w, w),
        (_: Reg, _: int, v: int, _: int) => v, (_: Reg, _: int, _: int) => 0,
        (v: int) => v != 0, (v: int) => v, 0)
  }

  lemma MixedParts()
    ensures |Mixed().nodes| == 5 && |Mixed().blocks| == 1 && Mixed().blocks[0] == Block([1, 2, 3, 4], Return(4))
    ensures Mixed().nodes[0] == Null && Mixed().nodes[1] == Local && Mixed().nodes[2] == Pure(261, [])
    ensures Mixed().nodes[3] == Store(1, 2) && Mixed().nodes[4] == Load(1)
    ensures GraphOf(Mixed()) == [Return(4)] && Shape(Mixed())
    ensures Mixed().types == Typing(map[3 := 64, 4 := 8], {})
  {
    assert GraphOf(Mixed()) == [Return(4)];
  }

  lemma MixedFirst()
    requires Shape(Mixed())
    ensures OnlyAddresses(Mixed(), {1}) && FirstAccess(Mixed(), 1, 1, 0) == Some(3) && Accessed(Mixed(), 1)
  {
    hide Mixed, Shape;
    MixedParts();
    var f := Mixed();
    assert FirstAccess(f, 1, 0, 2).None? && FirstAccess(f, 1, 0, 3) == Some(3);
    assert f.blocks[0].body[2] == 3;
  }

  // It is found good, with the size of the store.
  lemma MixedGood()
    ensures Shape(Mixed()) && Verdict(Mixed(), Mixed().types, 1) == Good
  {
    hide Mixed, Shape, OnlyAddresses, FirstAccess, Verdict, Accessed;
    MixedParts();
    MixedFirst();
    GoodIff(Mixed(), Mixed().types, 1);
  }

  // ----- What the pass asks of a function -----

  lemma MixedFits()
    ensures Shape(Mixed()) && PhiFree(Mixed(), [])
  {
    MixedParts();
    hide Mixed, Shape;
    var f := Mixed();
    assert forall k: nat, a: Reg :: k < 4 ==> StoredFits(f, 0, k, a);
  }

  // Node k has register k + 1.
  lemma MixedDefined(u: Reg, k: nat)
    requires 0 < u <= k <= 4
    ensures DefinedBefore(Mixed(), u, 0, k)
  {
    hide Mixed;
    MixedParts();
    assert Mixed().blocks[0].body[..k][u - 1] == u;
  }

  lemma MixedNodes()
    requires Shape(Mixed())
    ensures BlockDominated(Mixed(), 0)
  {
    hide Mixed, Shape, DefinedBefore;
    MixedParts();
    var f := Mixed();
    forall k: nat | k < 4 ensures NodeDominated(f, 0, k) {
      forall u | u in Uses(f.nodes[f.blocks[0].body[k]]) ensures DefinedBefore(f, u, 0, k) {
        assert k == 0 || k == 1 || k == 2 || k == 3;
        MixedDefined(u, k);
      }
      assert k == 0 || k == 1 || k == 2 || k == 3;
    }
    MixedDefined(4, 4);
  }

  lemma MixedReady()
    ensures Shape(Mixed()) && Ready(Mixed())
  {
    hide Mixed, Shape, PhiFree, BlockDominated;
    MixedFits();
    MixedParts();
    MixedNodes();
  }

  lemma MixedPromotable()
    ensures Shape(Mixed())
    ensures Promotable(Mixed(), 1) && !Promotable(Mixed(), 2) && !Promotable(Mixed(), 3) && !Promotable(Mixed(), 4)
  {
    hide Mixed, Shape, Verdict;
    MixedParts();
    MixedGood();
  }

  lemma MixedSlots()
    ensures Shape(Mixed()) && SlotList(Mixed()) == [1] && SlotsOf(Mixed()) == {1}
  {
    hide Mixed, Shape, Promotable;
    MixedParts();
    MixedPromotable();
    var f := Mixed();
    assert SlotsTo(f, 0, 0) == [] && SlotsTo(f, 0, 1) == [1] && SlotsTo(f, 0, 2) == [1];
    assert SlotsTo(f, 0, 3) == [1] && SlotsTo(f, 0, 4) == [1] && SlotsTo(f, 1, 0) == [1];
  }

  lemma MixedStored()
    ensures Shape(Mixed()) && LoadsInitialised(Mixed(), {1})
  {
    hide Mixed, Shape;
    MixedParts();
    var f := Mixed();
    assert Stored(f, f.blocks[0].body[2], 1).Some?;
    assert StoredBefore(f, 1, 0, 3);
  }

  // ----- What becomes of it -----

  lemma MixedRuns()
    ensures Shape(Mixed())
    ensures Run(Bytes(), {}, Mixed(), 0, 1).Halted? && Run(Bytes(), {}, Mixed(), 0, 1).outcome == Returned(5)
    ensures Run(Bytes(), {1}, Mixed(), 0, 1).Halted? && Run(Bytes(), {1}, Mixed(), 0, 1).outcome == Returned(261)
  {
    MixedParts();
    hide Mixed, Shape;
    MixedRun({});
    MixedRun({1});
  }

  lemma MixedRun(slots: set<Reg>)
    requires Shape(Mixed()) && (slots == {} || slots == {1})
    ensures var c := Run(Bytes(), slots, Mixed(), 0, 1);
            c.Halted? && c.outcome == Returned(if slots == {} then 5 else 261)
  {
    hide Mixed, Shape, ExecBody, EnterBlock;
    MixedParts();
    MixedEnter();
    MixedBody(slots);
    assert Run(Bytes(), slots, Mixed(), 0, 0) == At(0, 1, State(map[], map[], 0));
  }

  lemma MixedEnter()
    ensures |Mixed().blocks| == 1
    ensures var st: State<int, int> := State(map[], map[], 0);
            EnterBlock(Bytes(), Mixed(), Mixed().blocks[0].body, 1, st) == st
  {
    MixedParts();
    hide Mixed;
    var st: State<int, int> := State(map[], map[], 0);
    assert PhiMoves(Bytes(), Mixed(), Mixed().blocks[0].body, 1, st) == map[] && st.regs + map[] == st.regs;
  }

  lemma MixedBody(slots: set<Reg>)
    requires Shape(Mixed()) && (slots == {} || slots == {1})
    ensures |Mixed().blocks| == 1 && |Mixed().blocks[0].body| == 4
    ensures var st := ExecBody(Bytes(), slots, Mixed(), Mixed().blocks[0].body, 4, State(map[], map[], 0));
            Val(Bytes(), st, 4) == if slots == {} then 5 else 261
  {
    hide Mixed, Shape;
    MixedParts();
    var f, sem, body := Mixed(), Bytes(), Mixed().blocks[0].body;
    var st: State<int, int> := State(map[], map[], 0);
    var s2 := ExecBody(sem, slots, f, body, 2, ExecBody(sem, slots, f, body, 0, st));
    assert s2.regs[2] == 261 && (slots == {} ==> 1 in s2.regs && s2.regs[1] == 0);
    var s3 := ExecBody(sem, slots, f, body, 3, st);
    assert if slots == {} then s3.world == 261 else 1 in s3.slots && s3.slots[1] == 261;
  }

  // With one block no phi is left anywhere.
  lemma MixedFree()
    ensures Shape(Mixed()) && LeakFree(Mixed())
  {
    hide Mixed, Shape, JoinBlocks, SlotsOf, Parent;
    MixedParts();
  }

  lemma MixedPlain(junk: Reg)
    ensures NoMemsets(Mixed()) && !IsZero(Mixed(), junk)
  {
    MixedParts();
  }

  // The theorem: with its slot in memory the function returns 5, and what the pass makes of it,
  // as written or as meant, returns 261.
  lemma MixedBreaksRuns(asWritten: bool, junk: Reg, h: Function)
    requires Shape(Mixed()) && Promoted(Mixed(), asWritten, junk, h)
    ensures Shape(h)
    ensures Run(Bytes(), {}, Mixed(), 0, 1).Halted? && Run(Bytes(), {}, Mixed(), 0, 1).outcome == Returned(5)
    ensures Run(Bytes(), {}, h, 0, 1).Halted? && Run(Bytes(), {}, h, 0, 1).outcome == Returned(261)
  {
    hide Mixed, Shape, Ready, LoadsInitialised, NothingRead, NothingZeroed, SlotsOf, SlotList, Run, LeakFree,
         PassResult, Bytes, NoMemsets, IsZero;
    MixedReady();
    MixedSlots();
    MixedStored();
    MixedRuns();
    MixedFree();
    MixedPlain(junk);
    MixedParts();
    var pl: Plan, pre: seq<seq<Reg>> :| PassResult(Mixed(), asWritten, junk, h, pl, pre);
    PassParts(Mixed(), asWritten, junk, h, pl, pre);
    forall D: Doms | ExactDoms(GraphOf(Mixed()), D) ensures NothingRead(Mixed(), D) && NothingZeroed(Mixed(), D) {
      LeakFreeReads(Mixed(), D);
      NoMemsetsNothing(Mixed(), D);
    }
    PromotedRunsAlike(Bytes(), Mixed(), asWritten, junk, h, 0, 1);
  }

  // The pass, called on it.
  method MixedFails(asWritten: bool, junk: Reg) returns (h: Function)
    ensures Shape(Mixed()) && Shape(h) && Verdict(Mixed(), Mixed().types, 1) == Good
    ensures Run(Bytes(), {}, Mixed(), 0, 1).Halted? && Run(Bytes(), {}, Mixed(), 0, 1).outcome == Returned(5)
    ensures Run(Bytes(), {}, h, 0, 1).Halted? && Run(Bytes(), {}, h, 0, 1).outcome == Returned(261)
  {
    hide Mixed, Shape, Ready, FrontiersEnd, Run, Unsupported, Promoted, SlotsOf, SlotList, Verdict, Bytes;
    MixedGood();
    MixedReady();
    MixedSlots();
    MixedSupported();
    assert 1 in SlotsOf(Mixed());
    var r := PromoteSlots(Mixed(), asWritten, junk);
    h := r.value;
    MixedBreaksRuns(asWritten, junk, h);
  }

  lemma MixedSupported()
    ensures WellFormed(GraphOf(Mixed())) && !Unsupported(GraphOf(Mixed())) && FrontiersEnd(GraphOf(Mixed()))
  {
    hide Mixed, Unsupported, FrontiersEnd;
    MixedParts();
    var g := GraphOf(Mixed());
    assert Targets(g[0]) == [];
    EntryReachable(g);
    ReachableFrontiersEnd(g);
    OneWaySupported(g);
  }
}
