// A graph that src/tb/opt/cse.h:175-215 breaks: a PASS makes it take the node a chain ends in for
// one that stands where the PASS does.

module CseExample {
  import opened Cfg
  import opened DomTree
  import opened Dominators
  import opened Ir
  import opened Ssa
  import opened Replacing
  import opened Merging
  import opened Cse

  // 0: x = 10 + 20; goto 1    1: use x; goto 2    2: y = 10 + 20; p = PASS x; return p
  function Late(): Function
  {
    Function(
      [Null, Pure(10, []), Pure(20, []), Pure(0, [1, 2]), Effect(0, [3]), Pure(0, [1, 2]), Pass(3)],
      [Block([1, 2, 3], Goto(1)), Block([4], Goto(2)), Block([5, 6], Return(6))])
  }

  // Operations with these results; what acts on the world leaves its last operand there.
  function Last(vs: seq<int>): int
  {
    if vs == [] then 0 else vs[|vs| - 1]
  }

  function Numbers(): Sem<int, int>
  {
    Sem((op: nat, _: seq<int>) => op + 1, (op: nat, vs: seq<int>, w: int) => (0, Last(vs)), (_: Reg) => 0,
        (_: Reg, _: int, w: int) => (0, w), (_: Reg, _: int, w: int) => (0, w), (_: Reg, _: int, _: int, w: int) => w,
        (_: Reg, _: int, w: int) => w,
        (v: int) => v != 0, (v: int) => v, 0)
  }

  lemma LateNodes()
    ensures |Late().nodes| == 7
    ensures Late().nodes[0] == Null && Late().nodes[1] == Pure(10, []) && Late().nodes[2] == Pure(20, [])
    ensures Late().nodes[3] == Pure(0, [1, 2]) && Late().nodes[4] == Effect(0, [3])
    ensures Late().nodes[5] == Pure(0, [1, 2]) && Late().nodes[6] == Pass(3)
  {
  }

  lemma LateBlocks()
    ensures |Late().blocks| == 3 && |GraphOf(Late())| == 3
    ensures Late().blocks[0] == Block([1, 2, 3], Goto(1)) && Late().blocks[1] == Block([4], Goto(2))
    ensures Late().blocks[2] == Block([5, 6], Return(6))
    ensures GraphOf(Late()) == [Goto(1), Goto(2), Return(6)]
  {
  }

  function Home(r: Reg): (int, int)
  {
    if r <= 3 then (0, r - 1) else if r == 4 then (1, 0) else (2, r - 5)
  }

  lemma LateEdges()
    ensures forall a: Label, b: Label :: Edge(GraphOf(Late()), a, b) <==> (a, b) in {(0, 1), (1, 2)}
    ensures WellFormed(GraphOf(Late()))
  {
    hide Late;
    LateBlocks();
  }

  lemma LateShape()
    ensures Shape(Late())
  {
    hide Late, WellFormed;
    var f := Late();
    LateEdges();
    LateBlocks();
    LateNodes();
    forall b, k | 0 <= b < 3 && 0 <= k < |f.blocks[b].body|
      ensures f.blocks[b].body[k] < 7 && Home(f.blocks[b].body[k]) == (b, k)
    {
      assert b == 0 || b == 1 || b == 2;
    }
  }

  lemma LatePaths()
    ensures var g := GraphOf(Late()); PathTo(g, [0, 1], 1) && PathTo(g, [0, 1, 2], 2)
  {
    hide Late, Edge, WellFormed;
    LateBlocks();
    LateEdges();
  }

  // Blocks are passed in order.
  lemma LateDoms(D: Doms)
    requires ExactDoms(GraphOf(Late()), D)
    ensures |D| == 3 && D[0] == 0 && D[1] == 0 && D[2] == 1
  {
    hide Late, Edge, Targets;
    var g := GraphOf(Late());
    LateBlocks();
    LatePaths();
    OneBeforeTwo();
    assert Reachable(g, 1) && Reachable(g, 2);
    assert D[1] in [0, 1];
    assert Dom(g, 1, D[2]) && D[2] in [0, 1, 2];
    assert PathTo(g, [0], 0);
    assert 1 !in [0];
  }

  lemma {:induction false} OneBeforeTwo()
    ensures Sdom(GraphOf(Late()), 1, 2)
  {
    hide Late, Edge;
    LateEdges();
    LateBlocks();
    forall p | PathTo(GraphOf(Late()), p, 2) ensures 1 in p {
      assert Edge(GraphOf(Late()), p[|p| - 2], p[|p| - 1]);
      assert p[|p| - 2] == 1;
    }
  }

  // ----- What the pass makes of it -----

  // What the two searches work on; additions can be shared.
  ghost predicate LateSearch(c: Search)
  {
    SearchOf(c, Late()) && c.listed == {0} && |c.g| == 3
  }

  lemma LateTable(c: Search)
    requires LateSearch(c)
    ensures |c.doms| == 3 && c.doms[0] == 0 && c.doms[1] == 0 && c.doms[2] == 1
    ensures |c.defs| == 3 && c.defs[0] == [1, 2, 3] && c.defs[1] == [] && c.defs[2] == [5, 6]
  {
    hide Late, ExactDoms, Candidates, Shape;
    LateShape();
    LateBlocks();
    LateDoms(c.doms);
    LateNodes();
    LateDefs(Late().nodes);
  }

  lemma LateDefs(n: seq<Node>)
    requires |n| == 7 && !Candidate(n[4]) && forall r: Reg :: r < 7 && r != 4 ==> Candidate(n[r])
    ensures Candidates(n, [1, 2, 3], 3) == [1, 2, 3] && Candidates(n, [4], 1) == []
    ensures Candidates(n, [5, 6], 2) == [5, 6]
  {
    hide Candidates, Candidate;
    AllCandidates(n, [1, 2, 3], 3);
    AllCandidates(n, [5, 6], 2);
    NoCandidate(n, [4]);
  }

  lemma NoCandidate(nodes: seq<Node>, body: seq<Reg>)
    requires |body| == 1 && body[0] < |nodes| && !Candidate(nodes[body[0]])
    ensures Candidates(nodes, body, 1) == []
  {
    assert Candidates(nodes, body, 0) == [];
  }

  lemma {:induction false} AllCandidates(nodes: seq<Node>, body: seq<Reg>, k: nat)
    requires k <= |body| && forall i :: 0 <= i < |body| ==> body[i] < |nodes|
    requires forall i :: 0 <= i < k ==> Candidate(nodes[body[i]])
    ensures Candidates(nodes, body, k) == body[..k]
  {
    hide Candidate, Candidates;
    if k == 0 {
      CandidatesNone(nodes, body);
    } else {
      AllCandidates(nodes, body, k - 1);
      assert body[..k] == body[..k - 1] + [body[k - 1]];
      CandidatesNext(nodes, body, k - 1);
    }
  }

  lemma CandidatesNone(nodes: seq<Node>, body: seq<Reg>)
    requires forall i :: 0 <= i < |body| ==> body[i] < |nodes|
    ensures Candidates(nodes, body, 0) == []
  {
  }

  lemma CandidatesNext(nodes: seq<Node>, body: seq<Reg>, k: nat)
    requires k < |body| && (forall i :: 0 <= i < |body| ==> body[i] < |nodes|) && Candidate(nodes[body[k]])
    ensures Candidates(nodes, body, k + 1) == Candidates(nodes, body, k) + [body[k]]
  {
    hide Candidate;
  }

  // The walk from the block itself or from the one before it.
  lemma LateGlobal(c: Search, curr: Label, n: Node)
    requires LateSearch(c) && curr < 2
    ensures SearchOk(c)
    ensures GlobalLike(c, Late().nodes, curr, n) == FirstLike({0}, Late().nodes, if curr == 0 then [1, 2, 3] else [], n)
  {
    hide Late, ExactDoms, FirstLike, SearchOf;
    LateTable(c);
    LateOk(c);
    SearchedParent(c.g, c.doms, curr);
  }

  lemma LateOk(c: Search)
    requires LateSearch(c)
    ensures SearchOk(c)
  {
  }

  // Following no pass leads nowhere.
  lemma NoPass(f: Function, q: Reg)
    requires q < |f.nodes| && !f.nodes[q].Pass?
    ensures Final(f, q) == q
  {
  }

  lemma LateChain()
    ensures Final(Late(), 6) == 3
  {
    hide Late;
    LateNodes();
    var n := Late().nodes;
    assert Chase(n, 6, 7) == Chase(n, 3, 6);
  }

  // A register for which nothing like it is found.
  lemma Kept(c: Search, p: Progress, bb: Label, q: Reg)
    requires SearchOk(c) && bb < |c.g| && q < |p.f.nodes| && Final(p.f, q) == q && Candidate(p.f.nodes[q])
    requires 0 <= c.doms[bb] < |c.g| && GlobalLike(c, p.f.nodes, c.doms[bb], p.f.nodes[q]) in {0, q}
    requires LocalLike(c.listed, p.f.nodes, p.resolved, q) == 0
    ensures Attempted(c, p, bb, q) == p.(resolved := p.resolved + [q])
  {
    hide Final, GlobalLike, LocalLike, SearchOk;
  }

  lemma LateLike()
    ensures var n := Late().nodes;
            FirstLike({0}, n, [1, 2, 3], n[1]) == 0 && FirstLike({0}, n, [1, 2, 3], n[2]) == 0
            && FirstLike({0}, n, [1, 2, 3], n[3]) == 3 && FirstLike({0}, n, [], n[5]) == 0
    ensures var n := Late().nodes;
            LocalLike({0}, n, [], 1) == 0 && LocalLike({0}, n, [1], 2) == 0 && LocalLike({0}, n, [1, 2], 3) == 0
            && LocalLike({0}, n, [], 5) == 0 && LocalLike({0}, n, [5], 3) == 5
  {
    hide Late;
    LateNodes();
    var n := Late().nodes;
    assert [1, 2, 3][1..] == [2, 3] && [2, 3][1..] == [3] && [3][1..] == [] && [1, 2][1..] == [2] && [1][1..] == [] &&
           [2][1..] == [];
    assert FirstLike({0}, n, [3], n[1]) == 0 && FirstLike({0}, n, [3], n[2]) == 0 && FirstLike({0}, n, [3], n[3]) == 3;
  }

  // The entry: nothing to share.
  lemma LateFirst(c: Search)
    requires LateSearch(c)
    ensures SearchOk(c) && Place(Late(), 0, 3) && CseAt(c, Late(), 0, 3) == Progress(Late(), [1, 2, 3], [])
  {
    hide Late, SearchOf, FirstLike, LocalLike, GlobalLike, Attempted, Final;
    LateOk(c);
    LateNodes();
    LateBlocks();
    LateLike();
    LateTable(c);
    var f := Late();
    assert CseAt(c, f, 0, 0) == Progress(f, [], []);
    LateGlobal(c, 0, f.nodes[1]);
    NoPass(f, 1);
    Kept(c, Progress(f, [], []), 0, 1);
    assert CseAt(c, f, 0, 1) == Progress(f, [1], []);
    LateGlobal(c, 0, f.nodes[2]);
    NoPass(f, 2);
    Kept(c, Progress(f, [1], []), 0, 2);
    assert CseAt(c, f, 0, 2) == Progress(f, [1, 2], []);
    LateGlobal(c, 0, f.nodes[3]);
    NoPass(f, 3);
    Kept(c, Progress(f, [1, 2], []), 0, 3);
  }

  // The last block: x gives way to y.
  lemma LateLast(c: Search)
    requires LateSearch(c)
    ensures SearchOk(c) && CseAt(c, Late(), 3, 0) == Progress(MergedAs(Late(), 3, 5), [], [Merge(3, 5)])
  {
    hide Late, SearchOf, FirstLike, LocalLike, GlobalLike, Attempted, Final;
    LateFirst(c);
    LateNodes();
    LateBlocks();
    var f := Late();
    assert CseAt(c, f, 1, 0) == Progress(f, [], []);
    LateEffect(c);
    assert CseAt(c, f, 1, 1) == Progress(f, [], []);
    assert CseAt(c, f, 2, 0) == Progress(f, [], []);
    LateEnd(c);
    assert CseAt(c, f, 2, 1) == Progress(f, [5], []);
    assert CseAt(c, f, 2, 2) == GiveWay(Progress(f, [5], []), 3, 5);
  }

  lemma LateEffect(c: Search)
    requires LateSearch(c)
    ensures SearchOk(c) && Attempted(c, Progress(Late(), [], []), 1, 4) == Progress(Late(), [], [])
  {
    hide Late, SearchOf, GlobalLike, LocalLike, Final;
    LateOk(c);
    LateNodes();
    NoPass(Late(), 4);
  }

  lemma LateEnd(c: Search)
    requires LateSearch(c)
    ensures SearchOk(c) && Attempted(c, Progress(Late(), [], []), 2, 5) == Progress(Late(), [5], [])
    ensures Attempted(c, Progress(Late(), [5], []), 2, 6) == GiveWay(Progress(Late(), [5], []), 3, 5)
  {
    hide Late, SearchOf, FirstLike, GlobalLike, LocalLike, Final, GiveWay;
    LateOk(c);
    LateNodes();
    LateLike();
    LateTable(c);
    var f := Late();
    NoPass(f, 5);
    LateChain();
    LateGlobal(c, 1, f.nodes[5]);
    Kept(c, Progress(f, [], []), 2, 5);
  }

  // ----- What comes of it -----

  // The use of x in block 1 reads y, which block 2 defines.
  lemma LateSwapped()
    ensures var h := MergedAs(Late(), 3, 5);
            && Shape(Late()) && Shape(h) && |h.nodes| == 7 && |h.blocks| == 3
            && h.nodes[1] == Pure(10, []) && h.nodes[2] == Pure(20, []) && h.nodes[3] == Null &&
              h.nodes[4] == Effect(0, [5])
            && h.blocks[0] == Block([1, 2, 3], Goto(1)) && h.blocks[1] == Block([4], Goto(2))
  {
    hide Late, Shape;
    var f := Late();
    LateNodes();
    LateBlocks();
    LateShape();
    MergedSkeleton(f, 3, 5);
    SkeletonShape(f, MergedAs(f, 3, 5));
    assert f.blocks[1].body[0] == 4 && Listed(f, 4);
    assert SwapAll([3], 3, 5) == [5] && SwapAll([], 3, 5) == [];
  }

  // Nodes 1 to 3 in block 0 and the use of u in block 1.
  ghost predicate LateStart(h: Function, n: Node, u: Reg)
  {
    && Shape(h) && |h.nodes| == 7 && |h.blocks| == 3
    && h.nodes[1] == Pure(10, []) && h.nodes[2] == Pure(20, []) && h.nodes[3] == n && h.nodes[4] == Effect(0, [u])
    && h.blocks[0] == Block([1, 2, 3], Goto(1)) && h.blocks[1] == Block([4], Goto(2))
  }

  lemma LateUses(h: Function, n: Node, u: Reg)
    requires LateStart(h, n, u) && n in {Null, Pure(0, [1, 2])} && (u == 3 || u == 5)
    ensures Shape(h)
    ensures var c := Run(Numbers(), {}, h, 7, 2);
            c.At? && c.st.world == if n.Pure? && u == 3 then 1 else 0
  {
    hide Shape, EnterBlock, ExecBody;
    var sem, c := Numbers(), Run(Numbers(), {}, h, 7, 1);
    LateEntry(h, n, u);
    NoPhis(h, [4], 0, c.st);
    var d := Run(sem, {}, h, 7, 2);
    assert d == Step(sem, {}, h, c);
    OneNode(h, u, c.st);
  }

  lemma LateEntry(h: Function, n: Node, u: Reg)
    requires LateStart(h, n, u) && n in {Null, Pure(0, [1, 2])} && (u == 3 || u == 5)
    ensures Shape(h)
    ensures var c := Run(Numbers(), {}, h, 7, 1);
            c.At? && c == At(1, 0, c.st) && Val(Numbers(), c.st, u) == if n.Pure? && u == 3 then 1 else 0
  {
    hide Shape, EnterBlock, ExecBody;
    var sem, w := Numbers(), State(map[], map[], 7);
    NoPhis(h, [1, 2, 3], 3, w);
    var c := Run(sem, {}, h, 7, 1);
    assert Run(sem, {}, h, 7, 0) == At(0, 3, w);
    assert c == Step(sem, {}, h, At(0, 3, w));
    LateBody(h, n, u, w);
  }

  lemma NoPhis(h: Function, body: seq<Reg>, from: Label, st: State<int, int>)
    requires forall r :: r in body ==> r < |h.nodes| && !h.nodes[r].Phi?
    ensures EnterBlock(Numbers(), h, body, from, st) == st
  {
    assert PhiMoves(Numbers(), h, body, from, st) == map[];
  }

  lemma LateBody(h: Function, n: Node, u: Reg, w: State<int, int>)
    requires LateStart(h, n, u) && n in {Null, Pure(0, [1, 2])} && (u == 3 || u == 5)
    requires w == State(map[], map[], 7)
    ensures var st := ExecBody(Numbers(), {}, h, [1, 2, 3], 3, w);
            Val(Numbers(), st, u) == if n.Pure? && u == 3 then 1 else 0
  {
    hide Shape;
    var sem, body := Numbers(), [1, 2, 3];
    assert ExecBody(sem, {}, h, body, 1, w) == Assign(w, 1, 11);
    assert ExecBody(sem, {}, h, body, 2, w) == Assign(Assign(w, 1, 11), 2, 21);
  }

  lemma OneNode(h: Function, u: Reg, st: State<int, int>)
    requires |h.nodes| == 7 && h.nodes[4] == Effect(0, [u])
    ensures ExecBody(Numbers(), {}, h, [4], 1, st).world == Val(Numbers(), st, u)
  {
    var vs := Vals(Numbers(), st, [u]);
    assert vs == [Val(Numbers(), st, u)];
    assert ExecBody(Numbers(), {}, h, [4], 0, st) == st;
  }

  lemma LateIsInput()
    ensures CseInput(Late()) && SsaForm(Late())
  {
    hide Late, Shape, DefinedBefore, Final;
    var f := Late();
    LateShape();
    LateNodes();
    LateBlocks();
    LateChain();
    forall q: Reg | q < 7 ensures Final(f, q) < 7 && !f.nodes[Final(f, q)].Pass? {
      if q != 6 { NoPass(f, q); }
    }
    LateDefined();
    forall b: Label | b < 3 ensures BlockDominated(f, b) { LateBlock(b); }
  }

  lemma LateDefined()
    ensures var f := Late(); DefinedBefore(f, 1, 0, 2) && DefinedBefore(f, 2, 0, 2) && DefinedBefore(f, 3, 1, 0)
    ensures var f := Late();
            DefinedBefore(f, 1, 2, 0) && DefinedBefore(f, 2, 2, 0) && DefinedBefore(f, 3, 2, 1) &&
              DefinedBefore(f, 6, 2, 2)
  {
    hide Late, Dom;
    LateBlocks();
    EntryDominates(GraphOf(Late()), 1);
    EntryDominates(GraphOf(Late()), 2);
    assert [5, 6][..2] == [5, 6] && [1, 2, 3][..2] == [1, 2];
    assert Sdom(GraphOf(Late()), 0, 1) && Sdom(GraphOf(Late()), 0, 2);
  }

  lemma LateBlock(b: Label)
    requires b < 3
    ensures Shape(Late()) && |Late().blocks| == 3 && BlockDominated(Late(), b)
  {
    hide Late, Shape, DefinedBefore;
    LateShape();
    LateNodes();
    LateBlocks();
    LateDefined();
    var f := Late();
    forall k: nat | k < |f.blocks[b].body| ensures NodeDominated(f, b, k) {
      if b == 0 {
        assert k == 0 || k == 1 || k == 2;
      } else if b == 2 {
        assert k == 0 || k == 1;
      }
    }
    assert b == 2 || EndUses(f.blocks[b].end) == [];
  }

  // Block 1 reads x and y is not defined there.
  lemma LateUncovered()
    ensures Shape(Late()) && !UsesCovered(Late(), 3, 5) && !Covered(Late(), [Merge(3, 5)])
    ensures Shape(MergedAs(Late(), 3, 5)) && !SsaForm(MergedAs(Late(), 3, 5))
  {
    hide Late, Shape, SsaForm, DefinedBefore;
    LateIsInput();
    LateNodes();
    LateBlocks();
    var f := Late();
    NotYet();
    LatePaths();
    assert Reachable(GraphOf(f), 1);
    assert !NodeCovered(f, f.nodes[f.blocks[1].body[0]], 1, 0, 3, 5);
    assert MergeAll(f, [Merge(3, 5)][..0]) == f;
    assert !Covered(f, [Merge(3, 5)]) by { assert [Merge(3, 5)][..0] == []; }
    MergeIff(f, 3, 5);
  }

  lemma NotYet()
    ensures !DefinedBefore(Late(), 5, 1, 0)
  {
    hide Late;
    LateBlocks();
    LatePaths();
    assert !Dom(GraphOf(Late()), 2, 1) by { assert 2 !in [0, 1]; }
  }

  // The theorem: sharing the addition leaves block 1 reading what has no value, and what it does
  // to the world is no longer the same.
  lemma LateBreaksRuns(c: Search)
    requires LateSearch(c)
    ensures CseInput(Late()) && SsaForm(Late()) && SearchOk(c)
    ensures var p := CseAt(c, Late(), 3, 0);
            && p.steps == [Merge(3, 5)] && !Covered(Late(), p.steps)
            && Shape(p.f) && !SsaForm(p.f)
            && Run(Numbers(), {}, Late(), 7, 2).At? && Run(Numbers(), {}, Late(), 7, 2).st.world == 1
            && Run(Numbers(), {}, p.f, 7, 2).At? && Run(Numbers(), {}, p.f, 7, 2).st.world == 0
  {
    hide Late, Shape, SsaForm, SearchOf, CseInput, Covered, Run, CseAt;
    LateNodes();
    LateBlocks();
    LateIsInput();
    LateLast(c);
    LateSwapped();
    LateUses(Late(), Pure(0, [1, 2]), 3);
    LateUses(MergedAs(Late(), 3, 5), Null, 5);
    LateUncovered();
  }

  // ----- The pass does get that far -----

  lemma LateSupported()
    ensures WellFormed(GraphOf(Late())) && !Unsupported(GraphOf(Late()))
  {
    hide Late, Edge, WellFormed, Unsupported;
    LateBlocks();
    LateEdges();
    OneWaySupported(GraphOf(Late()));
  }

  lemma LateKnown()
    ensures AllKnown({0, 10, 20}, Late())
  {
    LateNodes();
  }

  // The pass turns the function into one that does something else.
  method LateFails() returns (h: Function)
    ensures Shape(Late()) && SsaForm(Late()) && Shape(h) && !SsaForm(h)
    ensures Run(Numbers(), {}, Late(), 7, 2).At? && Run(Numbers(), {}, Late(), 7, 2).st.world == 1
    ensures Run(Numbers(), {}, h, 7, 2).At? && Run(Numbers(), {}, h, 7, 2).st.world == 0
  {
    hide Late, Shape, SsaForm, SearchOf, CseInput, Run, CseAt, Covered, Unsupported;
    LateShape();
    LateIsInput();
    LateBlocks();
    LateSupported();
    var r, c := RunCse(Late(), {0}, {0, 10, 20});
    LateKnown();
    LateBreaksRuns(c);
    h := r.value;
  }
}
