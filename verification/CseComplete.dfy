// What common subexpression elimination in src/tb/opt/cse.h is for: no value is computed twice where
// the search looks.

module CseComplete {
  import opened Cfg
  import opened Ir
  import opened Ssa
  import opened DomTree
  import opened Dominators
  import opened Promotion
  import opened DomWalk
  import opened Replacing
  import opened Merging
  import opened Cse

  // ----- What is to be gone -----

  // A block is listed after all that dominate it.
  ghost predicate InOrder(f: Function)
    requires Shape(f)
  {
    forall d: Label, b: Label :: b < |f.blocks| && Reachable(GraphOf(f), b) && Sdom(GraphOf(f), d, b) ==> d < b
  }

  // Block a dominates b and is not the entry, or it is the next one above b.
  ghost predicate LooksInto(g: Graph, b: Label, a: Label)
  {
    Sdom(g, a, b) && (a != 0 || IsIdom(g, 0, b))
  }

  ghost predicate At(f: Function, a: Label, j: nat)
  {
    a < |f.blocks| && j < |f.blocks[a].body|
  }

  // Position j of block a is before k of b, or in a block that is looked into from there.
  ghost predicate Ahead(f: Function, a: Label, j: nat, b: Label, k: nat)
  {
    At(f, a, j) && At(f, b, k) && ((a == b && j < k) || LooksInto(GraphOf(f), b, a))
  }

  // Two registers with the same listed operation on the same operands.
  ghost predicate Twice(listed: set<nat>, h: Function, r: Reg, s: Reg)
  {
    && r < |h.nodes| && s < |h.nodes| && h.nodes[s].Pure? && h.nodes[s].opcode in listed
    && h.nodes[r] == h.nodes[s]
  }

  // ----- Dominators and the walk -----

  lemma {:induction false} DomUnder(g: Graph, D: Doms, c: Label, x: Label)
    requires ExactDoms(g, D) && x < |g| && Reachable(g, x) && Dom(g, c, x)
    ensures Under(g, D, c, x)
    decreases Rank(g, x)
  {
    if x != c {
      if x == 0 { DomEntry(g, c); }
      IdomRank(g, D, x);
      var d: Label := D[x];
      assert IsIdom(g, d, x);
      DomReachable(g, d, x);
      DomUnder(g, D, c, d);
    }
  }

  lemma LookedInto(g: Graph, D: Doms, b: Label, a: Label)
    requires ExactDoms(g, D) && b < |g| && Reachable(g, b) && LooksInto(g, b, a)
    ensures 0 < b && 0 <= D[b] < |g| && Searched(g, D, D[b], a)
  {
    if b == 0 { DomEntry(g, a); }
    IdomRank(g, D, b);
    var d: Label := D[b];
    assert IsIdom(g, d, b);
    DomReachable(g, d, b);
    DomUnder(g, D, a, d);
    if a == 0 { IdomUnique(g, 0, d, b); }
  }

  // ----- What a visit leaves alone -----

  lemma SwapNone(n: Node, r: Reg, s: Reg)
    requires r !in Uses(n)
    ensures SwapNode(n, r, s) == n
  {
    match n {
      case Pure(_, args) => assert SwapAll(args, r, s) == args;
      case Effect(_, args) => assert SwapAll(args, r, s) == args;
      case Phi(ins) =>
        forall i | 0 <= i < |ins| ensures SwapInputs(ins, r, s)[i] == ins[i] {
          assert InputRegs(ins)[i] == ins[i].val;
        }
        assert SwapInputs(ins, r, s) == ins;
      case _ =>
    }
  }

  lemma MergedNode(f: Function, r: Reg, s: Reg, x: Reg)
    requires r < |f.nodes| && x < |f.nodes|
    ensures var h := MergedFunction(f, r, s);
            && |h.nodes| == |f.nodes|
            && (x == r ==> h.nodes[x] == Null)
            && (x != r && r !in Uses(f.nodes[x]) ==> h.nodes[x] == f.nodes[x])
            && (h.nodes[x].Pure? ==> x != r && f.nodes[x].Pure? && h.nodes[x].opcode == f.nodes[x].opcode)
  {
    if r !in Uses(f.nodes[x]) { SwapNone(f.nodes[x], r, s); }
  }

  // A visit of register q, which is no PASS: either it gives way to another one, or it is noted.
  ghost predicate Visit(p: Progress, q: Reg, p1: Progress)
    requires q < |p.f.nodes|
  {
    || (exists s :: p1 == GiveWay(p, q, s))
    || p1 == if Candidate(p.f.nodes[q]) then p.(resolved := p.resolved + [q]) else p
  }

  lemma Visited(c: Search, source: Function, p: Progress, b: Label, k: nat)
    requires SearchOf(c, source) && At(source, b, k) && Clean(source, p, b, k)
    requires |c.g| == |source.blocks| && SearchOk(c)
    ensures var q := source.blocks[b].body[k]; q < |p.f.nodes| && Visit(p, q, Attempted(c, p, b, q))
  {
    hide SsaForm, Shape, EachSame, MergeAll, ChainsEnd, SameSkeleton, Covered, GlobalLike, LocalLike, SearchOk,
         Candidate, GiveWay;
    ListedFits(source, p, b, k);
    assert Final(p.f, source.blocks[b].body[k]) == source.blocks[b].body[k];
  }

  // What it does to node x.
  lemma VisitNode(p: Progress, q: Reg, p1: Progress, x: Reg)
    requires q < |p.f.nodes| && x < |p.f.nodes| && Visit(p, q, p1)
    ensures |p1.f.nodes| == |p.f.nodes|
    ensures x != q && q !in Uses(p.f.nodes[x]) ==> p1.f.nodes[x] == p.f.nodes[x]
    ensures p1.f.nodes[x].Pure? ==> p.f.nodes[x].Pure?
    ensures p1.f.nodes[q].Pure? ==> p1 == p.(resolved := p.resolved + [q])
    ensures p1.resolved == p.resolved || p1.resolved == p.resolved + [q]
  {
    hide MergedFunction, SwappedFunction;
    if s :| p1 == GiveWay(p, q, s) {
      MergedNode(p.f, q, s, x);
      MergedNode(p.f, q, s, q);
    }
  }

  // ----- Positions -----

  ghost predicate Sooner(a: nat, j: nat, b: nat, k: nat)
  {
    a < b || (a == b && j < k)
  }

  lemma OnePlace(f: Function, a: Label, j: nat, b: Label, k: nat)
    requires Shape(f) && At(f, a, j) && At(f, b, k) && Sooner(a, j, b, k)
    ensures f.blocks[a].body[j] != f.blocks[b].body[k]
  {
  }

  // The operands of an operation are listed before it.
  lemma UsesSooner(source: Function, p: Progress, b: nat, k: nat, a: Label, j: nat, u: Reg, d: Label, i: nat)
    requires Place(source, b, k) && Clean(source, p, b, k) && InOrder(source) && At(source, a, j)
    requires Reachable(GraphOf(source), a) && At(source, d, i) && source.blocks[d].body[i] == u
    requires source.blocks[a].body[j] < |p.f.nodes| && p.f.nodes[source.blocks[a].body[j]].Pure?
    requires u in Uses(p.f.nodes[source.blocks[a].body[j]])
    ensures Sooner(d, i, a, j)
  {
    hide ChainsEnd, EachSame, MergeAll, Covered, SameKind;
    SkeletonShape(source, p.f);
    assert BlockDominated(p.f, a) && NodeDominated(p.f, a, j);
    assert DefinedBefore(source, u, a, j);
    if u in source.blocks[a].body[..j] {
      var i1: nat :| i1 < j && source.blocks[a].body[i1] == u;
      assert d == a && i == i1;
    } else {
      var e: Label :| e < |source.blocks| && Sdom(GraphOf(source), e, a) && u in source.blocks[e].body;
      var i1: nat :| i1 < |source.blocks[e].body| && source.blocks[e].body[i1] == u;
      assert d == e;
    }
  }

  // ----- What has been visited stays -----

  lemma {:induction false} StaysVisited(c: Search, source: Function, b: nat, k: nat, b1: nat, k1: nat, a: Label, j: nat)
    requires SearchOf(c, source) && PassFree(source) && InOrder(source) && |c.g| == |source.blocks| && SearchOk(c)
    requires Place(source, b, k) && Place(source, b1, k1) && (b < b1 || (b == b1 && k <= k1))
    requires At(source, a, j) && Sooner(a, j, b, k) && Reachable(GraphOf(source), a)
    ensures var x, p, p1 := source.blocks[a].body[j], CseAt(c, source, b, k), CseAt(c, source, b1, k1);
            && x < |p.f.nodes| == |p1.f.nodes|
            && (p.f.nodes[x].Pure? ==> p1.f.nodes[x] == p.f.nodes[x])
            && (p1.f.nodes[x].Pure? ==> p.f.nodes[x].Pure?)
    decreases b1, k1
  {
    hide Attempted, SearchOk, SearchOf, PassFree, InOrder, Clean, Reachable;
    if b == b1 && k == k1 {
      CseIsClean(c, source, b, k);
      NodesFit(source, CseAt(c, source, b, k), b, k, a, j);
    } else if k1 > 0 {
      StaysVisited(c, source, b, k, b1, k1 - 1, a, j);
      VisitKeeps(c, source, CseAt(c, source, b1, k1 - 1), b1, k1 - 1, a, j);
    } else {
      StaysVisited(c, source, b, k, b1 - 1, |source.blocks[b1 - 1].body|, a, j);
    }
  }

  lemma NodesFit(source: Function, p: Progress, b: nat, k: nat, a: Label, j: nat)
    requires Place(source, b, k) && Clean(source, p, b, k) && At(source, a, j)
    ensures source.blocks[a].body[j] < |p.f.nodes| == |source.nodes|
  {
    hide SsaForm, ChainsEnd, EachSame, MergeAll, Covered;
  }

  lemma VisitKeeps(c: Search, source: Function, p: Progress, b: Label, k: nat, a: Label, j: nat)
    requires SearchOf(c, source) && InOrder(source) && |c.g| == |source.blocks| && SearchOk(c)
    requires At(source, b, k) && p == CseAt(c, source, b, k) && PassFree(source)
    requires At(source, a, j) && Sooner(a, j, b, k) && Reachable(GraphOf(source), a)
    ensures var x, p1 := source.blocks[a].body[j], Attempted(c, p, b, source.blocks[b].body[k]);
            && x < |p.f.nodes| == |p1.f.nodes|
            && (p.f.nodes[x].Pure? ==> p1.f.nodes[x] == p.f.nodes[x])
            && (p1.f.nodes[x].Pure? ==> p.f.nodes[x].Pure?)
  {
    hide Attempted, SearchOk, SearchOf, InOrder, Clean, Reachable, CseAt, Visit;
    CseIsClean(c, source, b, k);
    NodesFit(source, p, b, k, a, j);
    Visited(c, source, p, b, k);
    var x, q := source.blocks[a].body[j], source.blocks[b].body[k];
    VisitNode(p, q, Attempted(c, p, b, q), x);
    OnePlace(source, a, j, b, k);
    if p.f.nodes[x].Pure? && q in Uses(p.f.nodes[x]) {
      UsesSooner(source, p, b, k, a, j, q, b, k);
    }
  }

  // ----- What has been noted in a block -----

  // Operations before position k of block b that are still there have been noted.
  lemma {:induction false} AllNoted(c: Search, source: Function, b: Label, k: nat, j: nat)
    requires SearchOf(c, source) && PassFree(source) && |c.g| == |source.blocks| && SearchOk(c)
    requires b < |source.blocks| && j < k <= |source.blocks[b].body|
    ensures var x, p := source.blocks[b].body[j], CseAt(c, source, b, k);
            x < |p.f.nodes| && (p.f.nodes[x].Pure? ==> x in p.resolved)
    decreases k
  {
    hide Attempted, SearchOk, SearchOf, PassFree, Clean, Visit;
    var x, q, p := source.blocks[b].body[j], source.blocks[b].body[k - 1], CseAt(c, source, b, k - 1);
    CseIsClean(c, source, b, k - 1);
    NodesFit(source, p, b, k - 1, b, j);
    Visited(c, source, p, b, k - 1);
    VisitNode(p, q, Attempted(c, p, b, q), x);
    if j < k - 1 { AllNoted(c, source, b, k - 1, j); }
  }

  lemma {:induction false} LocalLikeFinds(listed: set<nat>, nodes: seq<Node>, list: seq<Reg>, r: Reg, x: Reg)
    requires r < |nodes| && |nodes| > 0 && nodes[0] == Null && x in list && x != r && x < |nodes|
    requires SameNode(listed, nodes[r], nodes[x])
    ensures LocalLike(listed, nodes, list, r) != 0
  {
    if list[0] != x || !(r != list[0] && list[0] < |nodes| && SameNode(listed, nodes[r], nodes[list[0]])) {
      LocalLikeFinds(listed, nodes, list[1..], r, x);
    }
  }

  // ----- A visit -----

  // A like in a block that is looked into is found, unless another one is found before.
  lemma GlobalLikeFinds(c: Search, source: Function, p: Progress, b: Label, k: nat, a: Label, j: nat)
    requires SearchOf(c, source) && At(source, b, k) && Clean(source, p, b, k) && |c.g| == |source.blocks|
    requires SearchOk(c) && At(source, a, j) && 0 < b && 0 <= c.doms[b] < |c.g|
    requires Searched(c.g, c.doms, c.doms[b], a)
    requires Twice(c.listed, p.f, source.blocks[a].body[j], source.blocks[b].body[k])
    ensures var found := GlobalLike(c, p.f.nodes, c.doms[b], p.f.nodes[source.blocks[b].body[k]]);
            found != 0 && found != source.blocks[b].body[k]
  {
    hide SsaForm, Shape, EachSame, MergeAll, ChainsEnd, Covered, GlobalLike, FirstSame, Searched, ExactDoms, DefTable,
         SameSkeleton, PassFree, SameKind;
    var x, q := source.blocks[a].body[j], source.blocks[b].body[k];
    SearchFits(c, source, p.f);
    DefsCount(c, source);
    ParentFits(c, b);
    var n := p.f.nodes[q];
    GlobalLikeIs(c, p.f.nodes, c.doms[b], n);
    var found := GlobalLike(c, p.f.nodes, c.doms[b], n);
    if found == 0 {
      assert NotFoundIn(c, p.f.nodes, c.doms[b], n, a);
      InTable(c, source, p, b, k, a, j);
    } else if found == q {
      var y: Label :| FoundIn(c, p.f.nodes, c.doms[b], n, y, found);
      FirstListed(c.listed, p.f.nodes, c.defs[y], n, found);
      OnlyThere(c, source, b, k, y);
      SearchedAbove(c.g, c.doms, b, y);
    }
  }

  lemma DefsCount(c: Search, source: Function)
    requires SearchOf(c, source)
    ensures |c.defs| == |source.blocks|
  {
    hide SearchOk;
  }

  lemma InTable(c: Search, source: Function, p: Progress, b: Label, k: nat, a: Label, j: nat)
    requires SearchOf(c, source) && Place(source, b, k) && Clean(source, p, b, k) && At(source, a, j)
    requires |c.defs| == |source.blocks|
    requires var x := source.blocks[a].body[j]; x < |p.f.nodes| && p.f.nodes[x].Pure?
    ensures source.blocks[a].body[j] in c.defs[a]
  {
    hide SsaForm, EachSame, MergeAll, ChainsEnd, Covered;
    var x := source.blocks[a].body[j];
    assert SameKind(source.nodes[x], p.f.nodes[x]);
  }

  lemma OnlyThere(c: Search, source: Function, b: Label, k: nat, y: Label)
    requires SearchOf(c, source) && At(source, b, k) && y < |source.blocks| == |c.defs|
    requires source.blocks[b].body[k] in c.defs[y]
    ensures y == b
  {
    hide SearchOk;
  }

  lemma SearchedAbove(g: Graph, D: Doms, b: Label, y: Label)
    requires ExactDoms(g, D) && 0 < b < |g| && 0 <= D[b] < |g| && Searched(g, D, D[b], y)
    ensures y != b
  {
    AboveIsSdom(g, D, y, b);
  }

  // A register that has its like ahead gives way.
  lemma LikeGivesWay(c: Search, source: Function, b: Label, k: nat, a: Label, j: nat)
    requires SearchOf(c, source) && PassFree(source) && |c.g| == |source.blocks| && SearchOk(c)
    requires Ahead(source, a, j, b, k) && Reachable(GraphOf(source), b)
    requires var p := CseAt(c, source, b, k); Twice(c.listed, p.f, source.blocks[a].body[j], source.blocks[b].body[k])
    ensures var p, q := CseAt(c, source, b, k), source.blocks[b].body[k];
            q < |p.f.nodes| && Attempted(c, p, b, q) != p.(resolved := p.resolved + [q])
  {
    hide ExactDoms, GlobalLike, LocalLike, CseAt, Reachable, LooksInto, Clean, PassFree;
    var p, x, q := CseAt(c, source, b, k), source.blocks[a].body[j], source.blocks[b].body[k];
    CseIsClean(c, source, b, k);
    NodesFit(source, p, b, k, a, j);
    ListedFits(source, p, b, k);
    CleanNull(source, p, b, k);
    ParentFits(c, b);
    assert c.g == GraphOf(source);
    assert Final(p.f, q) == q;
    if a == b && j < k {
      AllNoted(c, source, b, k, j);
      OnePlace(source, b, j, b, k);
      LocalLikeFinds(c.listed, p.f.nodes, p.resolved, q, x);
    } else {
      LookedInto(c.g, c.doms, b, a);
      GlobalLikeFinds(c, source, p, b, k, a, j);
    }
    forall s ensures GiveWay(p, q, s) != p.(resolved := p.resolved + [q]) {
      assert |GiveWay(p, q, s).steps| == |p.steps| + 1;
    }
  }

  // ----- The end -----

  lemma NoneTwice(c: Search, f: Function, a: Label, j: nat, b: Label, k: nat)
    requires SearchOf(c, f) && PassFree(f) && InOrder(f) && |c.g| == |f.blocks| && SearchOk(c)
    requires Ahead(f, a, j, b, k) && Reachable(GraphOf(f), b)
    ensures !Twice(c.listed, CseAt(c, f, |f.blocks|, 0).f, f.blocks[a].body[j], f.blocks[b].body[k])
  {
    hide SearchOk, SearchOf, Attempted, CseAt, PassFree, Clean, Visit, MergedFunction;
    var x, q, h := f.blocks[a].body[j], f.blocks[b].body[k], CseAt(c, f, |f.blocks|, 0).f;
    PassFreeShape(f);
    AheadSooner(f, a, j, b, k);
    var p, p1 := CseAt(c, f, b, k), CseAt(c, f, b, k + 1);
    StaysVisited(c, f, b, k + 1, |f.blocks|, 0, b, k);
    StaysVisited(c, f, b, k + 1, |f.blocks|, 0, a, j);
    if Twice(c.listed, h, x, q) {
      CseIsClean(c, f, b, k);
      NodesFit(f, p, b, k, a, j);
      Visited(c, f, p, b, k);
      NextVisit(c, f, b, k);
      VisitNode(p, q, p1, x);
      LikeGivesWay(c, f, b, k, a, j);
    }
  }

  lemma PassFreeShape(f: Function)
    requires PassFree(f)
    ensures Shape(f)
  {
    hide SsaForm;
  }

  lemma NextVisit(c: Search, f: Function, b: Label, k: nat)
    requires SearchOk(c) && |c.g| == |f.blocks| && At(f, b, k)
    ensures CseAt(c, f, b, k + 1) == Attempted(c, CseAt(c, f, b, k), b, f.blocks[b].body[k])
  {
    hide SearchOk, Attempted;
  }

  lemma AheadSooner(f: Function, a: Label, j: nat, b: Label, k: nat)
    requires Shape(f) && InOrder(f) && Ahead(f, a, j, b, k) && Reachable(GraphOf(f), b)
    ensures Sooner(a, j, b, k) && Reachable(GraphOf(f), a)
  {
    hide Reachable, Dom;
    if a != b { DomReachable(GraphOf(f), a, b); }
  }

  // The theorem: in a graph without passes whose blocks are listed after their dominators, no listed
  // operation on the same operands is left twice, where the one stands before the other in a block, or
  // in a dominator of its block other than the entry, or in the entry just above its block.
  lemma CseIsComplete(c: Search, f: Function)
    requires SearchOf(c, f) && PassFree(f) && InOrder(f) && |c.g| == |f.blocks| && SearchOk(c)
    ensures forall a: Label, j: nat, b: Label, k: nat :: Ahead(f, a, j, b, k) && Reachable(GraphOf(f), b) ==>
              !Twice(c.listed, CseAt(c, f, |f.blocks|, 0).f, f.blocks[a].body[j], f.blocks[b].body[k])
  {
    hide SearchOk, SearchOf, CseAt, PassFree, InOrder, Ahead, Twice, Reachable;
    forall a: Label, j: nat, b: Label, k: nat | Ahead(f, a, j, b, k) && Reachable(GraphOf(f), b)
      ensures At(f, a, j) && At(f, b, k)
      ensures !Twice(c.listed, CseAt(c, f, |f.blocks|, 0).f, f.blocks[a].body[j], f.blocks[b].body[k])
    {
      AheadThere(f, a, j, b, k);
      NoneTwice(c, f, a, j, b, k);
    }
  }

  lemma AheadThere(f: Function, a: Label, j: nat, b: Label, k: nat)
    requires Ahead(f, a, j, b, k)
    ensures At(f, a, j) && At(f, b, k)
  {
  }

  // ----- Only to what is ahead -----

  ghost predicate IsAhead(f: Function, s: Reg, b: Label, k: nat)
  {
    exists a: Label, j: nat :: Ahead(f, a, j, b, k) && f.blocks[a].body[j] == s
  }

  // The register that gives way, if it can be reached, gives way to one ahead of it.
  ghost predicate StepAhead(f: Function, m: Merge)
  {
    forall b: Label, k: nat :: At(f, b, k) && f.blocks[b].body[k] == m.gone && Reachable(GraphOf(f), b) ==>
      IsAhead(f, m.kept, b, k)
  }

  ghost predicate AllAhead(f: Function, steps: seq<Merge>)
  {
    forall i :: 0 <= i < |steps| ==> StepAhead(f, steps[i])
  }

  lemma InCandidates(source: Function, x: Label, found: Reg) returns (j: nat)
    requires Shape(source) && x < |source.blocks|
    requires found in Candidates(source.nodes, source.blocks[x].body, |source.blocks[x].body|)
    ensures At(source, x, j) && source.blocks[x].body[j] == found
  {
    hide Shape;
    j :| 0 <= j < |source.blocks[x].body| && source.blocks[x].body[j] == found;
  }

  // What the global search finds is ahead.
  lemma GlobalAhead(c: Search, source: Function, p: Progress, b: Label, k: nat, x: Label, found: Reg)
    requires SearchOf(c, source) && At(source, b, k) && Clean(source, p, b, k) && |c.g| == |source.blocks|
    requires SearchOk(c) && Reachable(GraphOf(source), b) && 0 <= c.doms[b] < |c.g|
    requires var q := source.blocks[b].body[k];
             && q < |p.f.nodes| && found != q && TableFits(c.defs, p.f.nodes)
             && FoundIn(c, p.f.nodes, c.doms[b], p.f.nodes[q], x, found)
    ensures IsAhead(source, found, b, k)
  {
    var q := source.blocks[b].body[k];
    ListedFits(source, p, b, k);
    FoundSame(c, p.f.nodes, c.doms[b], p.f.nodes[q], x, found);
    FirstListed(c.listed, p.f.nodes, c.defs[x], p.f.nodes[q], found);
    InTable2(c, source, x, found);
    var j := InCandidates(source, x, found);
    hide SsaForm, ChainsEnd, MergeAll, EachSame, Covered, FirstSame, Reachable, Shape, PassFree, SameSkeleton;
    if b == 0 {
      EntrySearch(c, source, p, k, x, found);
      var i: nat :| i < k && source.blocks[0].body[i] == found;
      assert Ahead(source, 0, i, 0, k);
    } else {
      AboveIsSdom(c.g, c.doms, x, b);
      BelowEntry(c.g, c.doms, b, x);
      assert Ahead(source, x, j, b, k);
    }
  }

  lemma InTable2(c: Search, source: Function, x: Label, found: Reg)
    requires SearchOf(c, source) && x < |c.defs| && found in c.defs[x]
    ensures Shape(source) && x < |source.blocks|
    ensures found in Candidates(source.nodes, source.blocks[x].body, |source.blocks[x].body|)
  {
    hide SearchOk;
  }

  // From the entry the search looks into the entry alone, and what it finds there comes first.
  lemma EntrySearch(c: Search, source: Function, p: Progress, k: nat, x: Label, found: Reg)
    requires SearchOf(c, source) && At(source, 0, k) && Clean(source, p, 0, k) && SearchOk(c)
    requires |c.g| == |source.blocks|
    requires var q := source.blocks[0].body[k];
             && q < |p.f.nodes| && found != q && TableFits(c.defs, p.f.nodes) && 0 <= c.doms[0] < |c.g|
             && FoundIn(c, p.f.nodes, c.doms[0], p.f.nodes[q], x, found)
    ensures found in source.blocks[0].body[..k]
  {
    hide SsaForm, ChainsEnd, MergeAll, EachSame, Covered, FirstSame;
    var q := source.blocks[0].body[k];
    FoundSame(c, p.f.nodes, c.doms[0], p.f.nodes[q], x, found);
    FirstListed(c.listed, p.f.nodes, c.defs[x], p.f.nodes[q], found);
    assert x == 0 && c.defs[0] == Candidates(source.nodes, source.blocks[0].body, |source.blocks[0].body|);
    SkeletonShape(source, p.f);
    assert SameKind(source.nodes[q], p.f.nodes[q]);
    FoundBefore(c.listed, source.nodes, p.f.nodes, source.blocks[0].body, k, found);
  }

  lemma BelowEntry(g: Graph, D: Doms, b: Label, x: Label)
    requires ExactDoms(g, D) && 0 < b < |g| && Reachable(g, b) && 0 <= D[b] < |g| && Searched(g, D, D[b], x)
    ensures x != 0 || IsIdom(g, 0, b)
  {
  }

  lemma VisitAhead(c: Search, source: Function, p: Progress, b: Label, k: nat)
    requires SearchOf(c, source) && At(source, b, k) && Clean(source, p, b, k) && |c.g| == |source.blocks|
    requires SearchOk(c) && PassFree(source) && AllAhead(source, p.steps)
    ensures AllAhead(source, Attempted(c, p, b, source.blocks[b].body[k]).steps)
  {
    hide SsaForm, Shape, EachSame, MergeAll, ChainsEnd, SameSkeleton, Covered, GlobalLike, LocalLike, FoundIn, IsAhead,
         Reachable, ExactDoms, PassFree;
    var q := source.blocks[b].body[k];
    ListedFits(source, p, b, k);
    assert Final(p.f, q) == q;
    if Candidate(p.f.nodes[q]) {
      SearchFits(c, source, p.f);
      ParentFits(c, b);
      var n := p.f.nodes[q];
      var found := GlobalLike(c, p.f.nodes, c.doms[b], n);
      GlobalLikeIs(c, p.f.nodes, c.doms[b], n);
      LocalLikeIs(c.listed, p.f.nodes, p.resolved, q);
      var other := LocalLike(c.listed, p.f.nodes, p.resolved, q);
      if found != 0 && q != found {
        if Reachable(GraphOf(source), b) {
          var x: Label :| FoundIn(c, p.f.nodes, c.doms[b], n, x, found);
          GlobalAhead(c, source, p, b, k, x, found);
        }
        MoreAhead(source, p.steps, b, k, found);
      } else if other != 0 {
        ResolvedAhead(source, p, b, k, other);
        MoreAhead(source, p.steps, b, k, other);
      }
    }
  }

  lemma ResolvedAhead(source: Function, p: Progress, b: Label, k: nat, other: Reg)
    requires At(source, b, k) && Clean(source, p, b, k) && other in p.resolved
    ensures IsAhead(source, other, b, k)
  {
    hide SsaForm, EachSame, MergeAll, ChainsEnd, Covered, Shape;
    var i :| 0 <= i < |p.resolved| && p.resolved[i] == other;
    var j: nat :| j < k && source.blocks[b].body[j] == other;
    assert Ahead(source, b, j, b, k);
  }

  lemma MoreAhead(f: Function, steps: seq<Merge>, b: Label, k: nat, s: Reg)
    requires AllAhead(f, steps) && At(f, b, k) && Shape(f)
    requires Reachable(GraphOf(f), b) ==> IsAhead(f, s, b, k)
    ensures AllAhead(f, steps + [Merge(f.blocks[b].body[k], s)])
  {
    hide Reachable, IsAhead;
    var m := Merge(f.blocks[b].body[k], s);
    forall b1: Label, k1: nat | At(f, b1, k1) && f.blocks[b1].body[k1] == m.gone && Reachable(GraphOf(f), b1)
      ensures IsAhead(f, m.kept, b1, k1)
    {
      assert b1 == b && k1 == k;
    }
    assert StepAhead(f, m);
  }

  // The theorem: nor does anything give way to a register that is not ahead, so that an operation of
  // the entry stays in the blocks further down.
  lemma {:induction false} CseMergesAhead(c: Search, source: Function, b: nat, k: nat)
    requires SearchOf(c, source) && PassFree(source) && SearchOk(c) && |c.g| == |source.blocks| && Place(source, b, k)
    ensures AllAhead(source, CseAt(c, source, b, k).steps)
    decreases b, k
  {
    hide Attempted, SearchOk, SearchOf, PassFree, Clean, StepAhead;
    if k > 0 {
      CseMergesAhead(c, source, b, k - 1);
      CseIsClean(c, source, b, k - 1);
      VisitAhead(c, source, CseAt(c, source, b, k - 1), b, k - 1);
    } else if b > 0 {
      CseMergesAhead(c, source, b - 1, |source.blocks[b - 1].body|);
    }
  }

  // ----- Only listed operations give way -----

  ghost predicate EachListed(listed: set<nat>, f: Function, steps: seq<Merge>)
  {
    steps == [] ||
    (var front, last := steps[..|steps| - 1], steps[|steps| - 1];
     var m := MergeAll(f, front);
     && EachListed(listed, f, front) && last.gone < |m.nodes| && m.nodes[last.gone].Pure?
     && m.nodes[last.gone].opcode in listed)
  }

  lemma ListedMore(c: Search, source: Function, p: Progress, r: Reg, s: Reg)
    requires Reached(source, p) && EachListed(c.listed, source, p.steps)
    requires r < |p.f.nodes| && p.f.nodes[r].Pure? && p.f.nodes[r].opcode in c.listed
    ensures EachListed(c.listed, source, GiveWay(p, r, s).steps)
  {
    hide Shape, EachSame, ChainsEnd, SameSkeleton;
    assert (p.steps + [Merge(r, s)])[..|p.steps|] == p.steps;
  }

  lemma AttemptListed(c: Search, source: Function, p: Progress, bb: Label, q: Reg)
    requires SearchOf(c, source) && Reached(source, p) && bb < |c.g| && SearchOk(c)
    requires EachListed(c.listed, source, p.steps)
    ensures EachListed(c.listed, source, Attempted(c, p, bb, q).steps)
  {
    hide Shape, SameSkeleton, ChainsEnd, MergeAll, EachSame, GiveWay, Final, GlobalLike, LocalLike, FoundIn, ExactDoms,
         EachListed;
    var r := Final(p.f, q);
    if r < |p.f.nodes| && Candidate(p.f.nodes[r]) {
      SearchFits(c, source, p.f);
      ParentFits(c, bb);
      var n, found := p.f.nodes[r], GlobalLike(c, p.f.nodes, c.doms[bb], p.f.nodes[r]);
      GlobalLikeIs(c, p.f.nodes, c.doms[bb], n);
      LocalLikeIs(c.listed, p.f.nodes, p.resolved, r);
      var other := LocalLike(c.listed, p.f.nodes, p.resolved, r);
      if found != 0 && r != found {
        var x: Label :| FoundIn(c, p.f.nodes, c.doms[bb], n, x, found);
        FoundListed(c, p.f.nodes, c.doms[bb], n, x, found);
        ListedMore(c, source, p, r, found);
      } else if other != 0 {
        ListedMore(c, source, p, r, other);
      } else {
        assert Attempted(c, p, bb, q).steps == p.steps;
      }
    }
  }

  lemma FoundListed(c: Search, nodes: seq<Node>, curr: Label, n: Node, x: Label, found: Reg)
    requires SearchOk(c) && curr < |c.g| && TableFits(c.defs, nodes) && FoundIn(c, nodes, curr, n, x, found)
    ensures n.Pure? && n.opcode in c.listed
  {
  }

  // The theorem: whatever the graph, an operation that the comparison does not list never gives way.
  lemma {:induction false} CseMergesListed(c: Search, source: Function, b: nat, k: nat)
    requires SearchOf(c, source) && CseInput(source) && SearchOk(c) && |c.g| == |source.blocks| && Place(source, b, k)
    ensures EachListed(c.listed, source, CseAt(c, source, b, k).steps)
    decreases b, k
  {
    hide Attempted, SearchOk, SearchOf, CseInput, Reached, MergeAll;
    if k > 0 {
      CseMergesListed(c, source, b, k - 1);
      CseMergesSame(c, source, b, k - 1);
      AttemptListed(c, source, CseAt(c, source, b, k - 1), b, source.blocks[b].body[k - 1]);
    } else if b > 0 {
      CseMergesListed(c, source, b - 1, |source.blocks[b - 1].body|);
    }
  }
}
