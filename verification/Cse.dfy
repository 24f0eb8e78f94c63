// src/tb/opt/cse.h: common subexpression elimination along the dominator tree.

module Cse {
  import opened Cfg
  import opened Predecessors
  import opened Ir
  import opened Ssa
  import opened DomTree
  import opened Dominators
  import opened Promotion
  import opened DomWalk
  import opened Replacing
  import opened Removal
  import opened Merging

  // is_node_the_same, for the operations it lists; all others compare unequal.
  predicate SameNode(listed: set<nat>, a: Node, b: Node)
  {
    a.Pure? && b == a && a.opcode in listed
  }

  // Nodes that generate_def_table and cse_attempt consider.
  predicate Candidate(n: Node)
  {
    !n.Effect? && !n.Store? && !n.Clear? && !n.Load?
  }

  // The candidates among the first k nodes of a body, in order.
  function Candidates(nodes: seq<Node>, body: seq<Reg>, k: nat): (c: seq<Reg>)
    requires k <= |body| && forall i :: 0 <= i < |body| ==> body[i] < |nodes|
    ensures forall x :: x in c <==> exists i :: 0 <= i < k && body[i] == x && Candidate(nodes[x])
    ensures forall i :: 0 <= i < |c| ==> c[i] < |nodes|
  {
    if k == 0 then []
    else Candidates(nodes, body, k - 1) + if Candidate(nodes[body[k - 1]]) then [body[k - 1]] else []
  }

  // The first node of the list that is the same as n.
  ghost predicate FirstSame(listed: set<nat>, nodes: seq<Node>, list: seq<Reg>, n: Node, found: Reg)
    requires forall i :: 0 <= i < |list| ==> list[i] < |nodes|
  {
    exists i :: 0 <= i < |list| && list[i] == found && SameNode(listed, n, nodes[found])
                && forall j :: 0 <= j < i ==> !SameNode(listed, n, nodes[list[j]])
  }

  ghost predicate NoneSame(listed: set<nat>, nodes: seq<Node>, list: seq<Reg>, n: Node)
    requires forall i :: 0 <= i < |list| ==> list[i] < |nodes|
  {
    forall i :: 0 <= i < |list| ==> !SameNode(listed, n, nodes[list[i]])
  }

  lemma {:induction false} CandidatesPrefix(nodes: seq<Node>, body: seq<Reg>, k: nat, n: nat)
    requires k <= n <= |body| && forall i :: 0 <= i < |body| ==> body[i] < |nodes|
    ensures Candidates(nodes, body, k) <= Candidates(nodes, body, n)
  {
    hide Candidate;
    if k < n { CandidatesPrefix(nodes, body, k, n - 1); }
  }

  // A match found in the list of r's own block comes before r, unless it is r.
  lemma FoundBefore(listed: set<nat>, start: seq<Node>, nodes: seq<Node>, body: seq<Reg>, k: nat, found: Reg)
    requires |start| == |nodes| && (forall i :: 0 <= i < |body| ==> body[i] < |nodes|) && k < |body|
    requires Candidate(start[body[k]]) && SameNode(listed, nodes[body[k]], nodes[body[k]])
    requires FirstSame(listed, nodes, Candidates(start, body, |body|), nodes[body[k]], found) && found != body[k]
    ensures found in body[..k]
  {
    hide Candidates, FirstSame;
    var list, before := Candidates(start, body, |body|), Candidates(start, body, k);
    CandidatesStart(start, body, k);
    FirstIsEarlier(listed, nodes, list, before, body[k], found);
  }

  lemma CandidatesStart(nodes: seq<Node>, body: seq<Reg>, k: nat)
    requires (forall i :: 0 <= i < |body| ==> body[i] < |nodes|) && k < |body| && Candidate(nodes[body[k]])
    ensures Candidates(nodes, body, k) + [body[k]] <= Candidates(nodes, body, |body|)
  {
    CandidatesPrefix(nodes, body, k + 1, |body|);
  }

  lemma FirstIsEarlier(listed: set<nat>, nodes: seq<Node>, list: seq<Reg>, before: seq<Reg>, r: Reg, found: Reg)
    requires (forall i :: 0 <= i < |list| ==> list[i] < |nodes|) && r < |nodes|
    requires before + [r] <= list && SameNode(listed, nodes[r], nodes[r])
    requires FirstSame(listed, nodes, list, nodes[r], found) && found != r
    ensures found in before
  {
    assert list[|before|] == r;
    var i :| 0 <= i < |list| && list[i] == found && forall j :: 0 <= j < i ==>
      !SameNode(listed, nodes[r], nodes[list[j]]);
    assert i < |before|;
    assert before[i] == found;
  }

  // ----- Dominating definitions -----

  lemma {:induction false} UnderDom(g: Graph, D: Doms, c: Label, x: Label)
    requires ExactDoms(g, D) && x < |g| && Reachable(g, x) && Under(g, D, c, x)
    ensures Dom(g, c, x)
    decreases Rank(g, x)
  {
    if x != c {
      IdomRank(g, D, x);
      var d: Label := D[x];
      assert IsIdom(g, d, x);
      DomReachable(g, d, x);
      UnderDom(g, D, c, d);
      DomTrans(g, c, d, x);
    }
  }

  lemma AboveIsSdom(g: Graph, D: Doms, c: Label, b: Label)
    requires ExactDoms(g, D) && 0 < b < |g| && Under(g, D, c, D[b])
    ensures Sdom(g, c, b) && c < |g|
  {
    var d: Label := D[b];
    IdomRank(g, D, b);
    UnderRank(g, D, c, d);
    if Reachable(g, b) {
      assert IsIdom(g, d, b);
      DomReachable(g, d, b);
      UnderDom(g, D, c, d);
      DomTrans(g, c, d, b);
    } else {
      assert forall p :: !PathTo(g, p, b);
    }
  }

  // The block the walk from curr looks into: curr and what dominates it, but for the entry.
  ghost predicate Searched(g: Graph, D: Doms, curr: Label, c: Label)
    requires ExactDoms(g, D) && curr < |g|
  {
    Under(g, D, c, curr) && (c == curr || c != 0)
  }

  lemma SearchedParent(g: Graph, D: Doms, curr: Label)
    requires ExactDoms(g, D) && curr < |g|
    ensures D[curr] != 0 ==> curr > 0 && Rank(g, D[curr]) < Rank(g, curr)
    ensures D[curr] != 0 ==> forall c: Label :: Searched(g, D, curr, c) <==> c == curr || Searched(g, D, D[curr], c)
    ensures D[curr] == 0 ==> forall c: Label :: Searched(g, D, curr, c) <==> c == curr
  {
    if curr > 0 {
      IdomRank(g, D, curr);
      var d: Label := D[curr];
      forall c: Label ensures d == 0 && c != 0 && c != curr ==> !Under(g, D, c, curr) {
        assert d == 0 && c != 0 ==> !Under(g, D, c, d);
      }
    }
  }

  // ----- The two searches -----

  // What cse_create collects.
  datatype Search = Search(g: Graph, doms: Doms, listed: set<nat>, defs: seq<seq<Reg>>)

  ghost predicate SearchOk(c: Search)
  {
    ExactDoms(c.g, c.doms) && |c.defs| == |c.g|
  }

  // find_similar_def_in_bb; 0 is no register.
  ghost function FirstLike(listed: set<nat>, nodes: seq<Node>, list: seq<Reg>, n: Node): Reg
  {
    if list == [] then 0
    else if list[0] < |nodes| && SameNode(listed, n, nodes[list[0]]) then list[0]
    else FirstLike(listed, nodes, list[1..], n)
  }

  // walk_dominators_for_similar_def
  ghost function GlobalLike(c: Search, nodes: seq<Node>, curr: Label, n: Node): Reg
    requires SearchOk(c) && curr < |c.g|
    decreases Rank(c.g, curr)
  {
    SearchedParent(c.g, c.doms, curr);
    var parent: Label := c.doms[curr];
    var up := if parent != 0 && curr != parent then GlobalLike(c, nodes, parent, n) else 0;
    if up != 0 then up else FirstLike(c.listed, nodes, c.defs[curr], n)
  }

  // The loop over the registers resolved in this block.
  ghost function LocalLike(listed: set<nat>, nodes: seq<Node>, list: seq<Reg>, r: Reg): Reg
    requires r < |nodes|
  {
    if list == [] then 0
    else if r != list[0] && list[0] < |nodes| && SameNode(listed, nodes[r], nodes[list[0]]) then list[0]
    else LocalLike(listed, nodes, list[1..], r)
  }

  lemma {:induction false} FirstLikeIs(listed: set<nat>, nodes: seq<Node>, list: seq<Reg>, n: Node)
    requires (forall i :: 0 <= i < |list| ==> list[i] < |nodes|) && |nodes| > 0 && nodes[0] == Null
    ensures var r := FirstLike(listed, nodes, list, n);
            r < |nodes| && if r != 0 then FirstSame(listed, nodes, list, n, r) else NoneSame(listed, nodes, list, n)
  {
    if list != [] && !SameNode(listed, n, nodes[list[0]]) {
      var rest := list[1..];
      FirstLikeIs(listed, nodes, rest, n);
      var r := FirstLike(listed, nodes, rest, n);
      if r != 0 {
        var i :| 0 <= i < |rest| && rest[i] == r && SameNode(listed, n, nodes[r])
                 && forall j :: 0 <= j < i ==> !SameNode(listed, n, nodes[rest[j]]);
        assert list[i + 1] == r;
        assert forall j :: 0 <= j < i + 1 ==> !SameNode(listed, n, nodes[list[j]]);
      }
    }
  }

  ghost predicate TableFits(defs: seq<seq<Reg>>, nodes: seq<Node>)
  {
    && |nodes| > 0 && nodes[0] == Null
    && forall b: Label, i :: b < |defs| && 0 <= i < |defs[b]| ==> defs[b][i] < |nodes|
  }

  // A node like n in block x, among those that the walk from curr looks into.
  ghost predicate FoundIn(c: Search, nodes: seq<Node>, curr: Label, n: Node, x: Label, found: Reg)
    requires SearchOk(c) && curr < |c.g| && TableFits(c.defs, nodes)
  {
    x < |c.g| && Searched(c.g, c.doms, curr, x) && FirstSame(c.listed, nodes, c.defs[x], n, found)
  }

  ghost predicate NotFoundIn(c: Search, nodes: seq<Node>, curr: Label, n: Node, x: Label)
    requires SearchOk(c) && curr < |c.g| && TableFits(c.defs, nodes)
  {
    x < |c.g| && Searched(c.g, c.doms, curr, x) ==> NoneSame(c.listed, nodes, c.defs[x], n)
  }

  // The walk finds a node in a block that it looks into, whenever there is one.
  lemma {:induction false} GlobalLikeIs(c: Search, nodes: seq<Node>, curr: Label, n: Node)
    requires SearchOk(c) && curr < |c.g| && TableFits(c.defs, nodes)
    ensures var r := GlobalLike(c, nodes, curr, n);
            && r < |nodes|
            && (r != 0 ==> exists x: Label :: FoundIn(c, nodes, curr, n, x, r))
            && (r == 0 ==> forall x: Label :: NotFoundIn(c, nodes, curr, n, x))
    decreases Rank(c.g, curr)
  {
    hide ExactDoms, Searched, FirstSame, NoneSame, Rank;
    SearchedParent(c.g, c.doms, curr);
    SearchedHere(c.g, c.doms, curr);
    FirstLikeIs(c.listed, nodes, c.defs[curr], n);
    ParentFits(c, curr);
    var parent: Label := c.doms[curr];
    var r := GlobalLike(c, nodes, curr, n);
    if parent != 0 && curr != parent {
      GlobalLikeIs(c, nodes, parent, n);
      if GlobalLike(c, nodes, parent, n) != 0 {
        var x: Label :| FoundIn(c, nodes, parent, n, x, r);
        assert FoundIn(c, nodes, curr, n, x, r);
      } else {
        forall x: Label ensures r == 0 ==>
          NotFoundIn(c, nodes, curr, n, x) { assert NotFoundIn(c, nodes, parent, n, x); }
      }
    }
    assert GlobalUnfolds(c, nodes, curr, n);
    if r != 0 && r == FirstLike(c.listed, nodes, c.defs[curr], n) { assert FoundIn(c, nodes, curr, n, curr, r); }
  }

  ghost predicate GlobalUnfolds(c: Search, nodes: seq<Node>, curr: Label, n: Node)
    requires SearchOk(c) && curr < |c.g|
  {
    var parent := c.doms[curr];
    0 <= parent < |c.g| &&
    GlobalLike(c, nodes, curr, n) ==
      var up := if parent != 0 && curr != parent then GlobalLike(c, nodes, parent, n) else 0;
      if up != 0 then up else FirstLike(c.listed, nodes, c.defs[curr], n)
  }

  lemma ParentFits(c: Search, curr: Label)
    requires SearchOk(c) && curr < |c.g|
    ensures |c.doms| == |c.g| && 0 <= c.doms[curr] < |c.g| && (curr == 0 ==> c.doms[curr] == 0)
    ensures (c.doms[curr] == curr ==> curr == 0)
  {
    if curr > 0 { IdomRank(c.g, c.doms, curr); }
  }

  lemma SearchedHere(g: Graph, D: Doms, curr: Label)
    requires ExactDoms(g, D) && curr < |g|
    ensures Searched(g, D, curr, curr)
  {
  }

  lemma {:induction false} LocalLikeIs(listed: set<nat>, nodes: seq<Node>, list: seq<Reg>, r: Reg)
    requires r < |nodes| && |nodes| > 0 && nodes[0] == Null
    ensures var x := LocalLike(listed, nodes, list, r);
            x != 0 ==> x in list && x != r && x < |nodes| && SameNode(listed, nodes[r], nodes[x])
  {
    if list != [] { LocalLikeIs(listed, nodes, list[1..], r); }
  }

  // ----- Chains of passes -----

  ghost function Final(f: Function, q: Reg): Reg
  {
    Chase(f.nodes, q, |f.nodes|)
  }

  // No PASS leads round in a circle, or out of the graph.
  ghost predicate ChainsEnd(f: Function)
  {
    forall q: Reg :: q < |f.nodes| ==> Final(f, q) < |f.nodes| && !f.nodes[Final(f, q)].Pass?
  }

  lemma {:induction false} ChaseMerged(f: Function, r: Reg, s: Reg, q: Reg, n: nat)
    requires SameNodes(f, r, s) && q < |f.nodes|
    requires Chase(f.nodes, q, n) < |f.nodes| && !f.nodes[Chase(f.nodes, q, n)].Pass?
    ensures var t, u := Chase(f.nodes, q, n), Chase(MergedFunction(f, r, s).nodes, q, n); u == t || (t == r && u == s)
    decreases n
  {
    var h := MergedFunction(f, r, s);
    if n > 0 && f.nodes[q].Pass? {
      var u := f.nodes[q].src;
      if u == r {
        assert Chase(f.nodes, r, n - 1) == r && Chase(h.nodes, r, n - 1) == r && Chase(h.nodes, s, n - 1) == s;
      } else if u < |f.nodes| {
        ChaseMerged(f, r, s, u, n - 1);
      }
    }
  }

  lemma MergedChainsEnd(f: Function, r: Reg, s: Reg)
    requires SameNodes(f, r, s) && ChainsEnd(f)
    ensures ChainsEnd(MergedFunction(f, r, s))
  {
    var h := MergedFunction(f, r, s);
    forall q: Reg | q < |h.nodes| ensures Final(h, q) < |h.nodes| && !h.nodes[Final(h, q)].Pass? {
      assert Final(f, q) < |f.nodes| && !f.nodes[Final(f, q)].Pass?;
      ChaseMerged(f, r, s, q, |f.nodes|);
    }
  }

  // ----- The algorithm as a function -----

  datatype Progress = Progress(f: Function, resolved: seq<Reg>, steps: seq<Merge>)

  ghost function GiveWay(p: Progress, r: Reg, s: Reg): Progress
  {
    Progress(MergedAs(p.f, r, s), p.resolved, p.steps + [Merge(r, s)])
  }

  // cse_attempt on register q of block bb.
  ghost function Attempted(c: Search, p: Progress, bb: Label, q: Reg): Progress
    requires SearchOk(c) && bb < |c.g|
  {
    var r := Final(p.f, q);
    if r >= |p.f.nodes| || !Candidate(p.f.nodes[r]) then p
    else
      ParentFits(c, bb);
      var found := GlobalLike(c, p.f.nodes, c.doms[bb], p.f.nodes[r]);
      if found != 0 && r != found then GiveWay(p, r, found)
      else
        var other := LocalLike(c.listed, p.f.nodes, p.resolved, r);
        if other != 0 then GiveWay(p, r, other) else p.(resolved := p.resolved + [r])
  }

  // Before position k of block b is visited.
  ghost function CseAt(c: Search, source: Function, b: nat, k: nat): Progress
    requires SearchOk(c) && |c.g| == |source.blocks| && Place(source, b, k)
    decreases b, k
  {
    if k > 0 then Attempted(c, CseAt(c, source, b, k - 1), b, source.blocks[b].body[k - 1])
    else if b == 0 then Progress(source, [], [])
    else CseAt(c, source, b - 1, |source.blocks[b - 1].body|).(resolved := [])
  }

  // ----- What it keeps, for every graph -----

  // What the search needs of the graph.
  ghost predicate CseInput(f: Function)
  {
    Shape(f) && |f.nodes| > 0 && f.nodes[0] == Null && ChainsEnd(f)
  }

  // f is source after merges of nodes with the same operation and operands.
  ghost predicate Reached(source: Function, p: Progress)
  {
    && Shape(source) && p.f == MergeAll(source, p.steps) && EachSame(source, p.steps)
    && CseInput(p.f) && SameSkeleton(source, p.f)
  }

  ghost predicate SearchOf(c: Search, source: Function)
  {
    Shape(source) && SearchOk(c) && c.g == GraphOf(source) && c.defs == DefTable(source)
  }

  lemma SearchFits(c: Search, source: Function, f: Function)
    requires SearchOf(c, source) && CseInput(f) && SameSkeleton(source, f)
    ensures TableFits(c.defs, f.nodes)
  {
    DefsFit(source);
  }

  lemma ReachedMore(source: Function, p: Progress, r: Reg, s: Reg)
    requires Reached(source, p) && SameNodes(p.f, r, s)
    ensures Reached(source, GiveWay(p, r, s))
  {
    hide Shape, SameSkeleton, ChainsEnd, MergedFunction, MergeAll, EachSame, Stands;
    var q := GiveWay(p, r, s);
    MergedSkeleton(p.f, r, s);
    SkeletonShape(p.f, q.f);
    SkeletonTrans(source, p.f, q.f);
    MergedChainsEnd(p.f, r, s);
    NullStays(p.f, r, s);
    MergeAllMore(source, p.steps, Merge(r, s));
    SameMore(source, p.steps, Merge(r, s));
  }

  lemma NullStays(f: Function, r: Reg, s: Reg)
    requires SameNodes(f, r, s)
    ensures var h := MergedFunction(f, r, s); |h.nodes| == |f.nodes| && h.nodes[0] == Null
  {
  }

  lemma SameMore(f: Function, steps: seq<Merge>, last: Merge)
    requires EachSame(f, steps) && SameNodes(MergeAll(f, steps), last.gone, last.kept)
    ensures EachSame(f, steps + [last])
  {
    assert (steps + [last])[..|steps|] == steps;
  }

  lemma AttemptKeeps(c: Search, source: Function, p: Progress, bb: Label, q: Reg)
    requires SearchOf(c, source) && Reached(source, p) && bb < |c.g|
    ensures Reached(source, Attempted(c, p, bb, q))
  {
    hide Shape, SameSkeleton, ChainsEnd, MergeAll, EachSame, GiveWay, Final, SearchOk, GlobalLike, LocalLike, FoundIn;
    var r := Final(p.f, q);
    if r < |p.f.nodes| && Candidate(p.f.nodes[r]) {
      SearchFits(c, source, p.f);
      ParentFits(c, bb);
      var n, found := p.f.nodes[r], GlobalLike(c, p.f.nodes, c.doms[bb], p.f.nodes[r]);
      GlobalLikeIs(c, p.f.nodes, c.doms[bb], n);
      LocalLikeIs(c.listed, p.f.nodes, p.resolved, r);
      var other := LocalLike(c.listed, p.f.nodes, p.resolved, r);
      if found != 0 && r != found {
        var x: Label :| FoundIn(c, p.f.nodes, c.doms[bb], n, x, found);
        FoundSame(c, p.f.nodes, c.doms[bb], n, x, found);
        ReachedMore(source, p, r, found);
      } else if other != 0 {
        ReachedMore(source, p, r, other);
      }
    }
  }

  lemma FoundSame(c: Search, nodes: seq<Node>, curr: Label, n: Node, x: Label, found: Reg)
    requires SearchOk(c) && curr < |c.g| && TableFits(c.defs, nodes) && FoundIn(c, nodes, curr, n, x, found)
    ensures found < |nodes| && n.Pure? && nodes[found] == n
  {
  }

  // The theorem: whatever the graph, only nodes with the same operation and operands are merged.
  lemma {:induction false} CseMergesSame(c: Search, source: Function, b: nat, k: nat)
    requires SearchOf(c, source) && CseInput(source) && Place(source, b, k)
    ensures Reached(source, CseAt(c, source, b, k))
    decreases b, k
  {
    hide Attempted, SearchOk, ChainsEnd, Shape;
    if k > 0 {
      CseMergesSame(c, source, b, k - 1);
      AttemptKeeps(c, source, CseAt(c, source, b, k - 1), b, source.blocks[b].body[k - 1]);
    } else if b > 0 {
      CseMergesSame(c, source, b - 1, |source.blocks[b - 1].body|);
    }
  }

  // ----- Without passes -----

  // No PASS nodes; register 0 is the null register.
  ghost predicate PassFree(f: Function)
  {
    Shape(f) && SsaForm(f) && |f.nodes| > 0 && f.nodes[0] == Null && forall r: Reg :: r < |f.nodes| ==>
      !f.nodes[r].Pass?
  }

  // A node stays what it is, or is removed.
  ghost predicate SameKind(a: Node, b: Node)
  {
    b.Null? || (Candidate(a) <==> Candidate(b))
  }

  // What was resolved in this block comes before position k.
  ghost predicate Resolved(source: Function, resolved: seq<Reg>, b: nat, k: nat)
    requires Place(source, b, k)
  {
    forall i :: 0 <= i < |resolved| ==> b < |source.blocks| && resolved[i] in source.blocks[b].body[..k]
  }

  // All is well before position k of block b.
  ghost predicate Clean(source: Function, p: Progress, b: nat, k: nat)
    requires Place(source, b, k)
  {
    && PassFree(source) && Reached(source, p) && Covered(source, p.steps) && PassFree(p.f)
    && (forall r: Reg :: r < |p.f.nodes| ==> SameKind(source.nodes[r], p.f.nodes[r]))
    && Resolved(source, p.resolved, b, k)
  }

  lemma SwapKind(n: Node, r: Reg, s: Reg)
    ensures SameKind(n, SwapNode(n, r, s)) && (n.Pass? <==> SwapNode(n, r, s).Pass?)
    ensures (n.Null? <==> SwapNode(n, r, s).Null?)
  {
  }

  lemma MergedKinds(f: Function, r: Reg, s: Reg, q: Reg)
    requires SameNodes(f, r, s) && q < |f.nodes| && !f.nodes[q].Pass?
    ensures var h := MergedFunction(f, r, s); q < |h.nodes| && SameKind(f.nodes[q], h.nodes[q]) && !h.nodes[q].Pass?
    ensures f.nodes[q].Null? ==> MergedFunction(f, r, s).nodes[q].Null?
  {
    SwapKind(f.nodes[q], r, s);
  }

  // Merging a node with one before it.
  lemma CleanMore(source: Function, p: Progress, r: Reg, s: Reg, b: Label, k: nat)
    requires b < |source.blocks| && k < |source.blocks[b].body| && Clean(source, p, b, k)
    requires SameNodes(p.f, r, s) && Twin(p.f, r, s, b, k)
    ensures Clean(source, GiveWay(p, r, s), b, k + 1)
  {
    hide Shape, SsaForm, Stands, MergedFunction, EachSame, MergeAll, Twin, ChainsEnd, Covered, SameNodes, SameKind,
         PassFree;
    CleanCovered(source, p, r, s, b, k);
    ReachedMore(source, p, r, s);
    PassFreeMore(source, p.f, r, s);
    ResolvedMore(source, p.resolved, b, k);
  }

  lemma CleanCovered(source: Function, p: Progress, r: Reg, s: Reg, b: Label, k: nat)
    requires b < |source.blocks| && k < |source.blocks[b].body| && Clean(source, p, b, k)
    requires SameNodes(p.f, r, s) && Twin(p.f, r, s, b, k)
    ensures Covered(source, p.steps + [Merge(r, s)]) && MergedAs(p.f, r, s) == MergedFunction(p.f, r, s)
    ensures Shape(MergedFunction(p.f, r, s)) && SsaForm(MergedFunction(p.f, r, s))
  {
    hide Shape, SsaForm, Stands, MergedFunction, EachSame, MergeAll, Twin, ChainsEnd, Covered;
    TwinStands(p.f, r, s, b, k);
    StandsCovers(p.f, r, s);
    SameCovers(p.f, r, s);
    CoveredMore(source, p.steps, Merge(r, s));
  }

  lemma PassFreeMore(source: Function, f: Function, r: Reg, s: Reg)
    requires SameNodes(f, r, s) && PassFree(f) && |source.nodes| == |f.nodes|
    requires forall q: Reg :: q < |f.nodes| ==> SameKind(source.nodes[q], f.nodes[q])
    requires var h := MergedFunction(f, r, s); Shape(h) && SsaForm(h)
    ensures var h := MergedFunction(f, r, s);
            |h.nodes| == |f.nodes| && PassFree(h) && forall q: Reg :: q < |h.nodes| ==>
              SameKind(source.nodes[q], h.nodes[q])
  {
    hide Shape, SsaForm, MergedFunction;
    var h := MergedFunction(f, r, s);
    NullStays(f, r, s);
    forall q: Reg | q < |f.nodes| ensures q < |h.nodes| && SameKind(source.nodes[q], h.nodes[q]) && !h.nodes[q].Pass? {
      MergedKinds(f, r, s, q);
    }
  }

  lemma StandsCovers(f: Function, r: Reg, s: Reg)
    requires Shape(f) && Stands(f, r, s)
    ensures UsesCovered(f, r, s)
  {
  }

  lemma CoveredMore(f: Function, steps: seq<Merge>, last: Merge)
    requires Covered(f, steps) && Shape(MergeAll(f, steps)) && UsesCovered(MergeAll(f, steps), last.gone, last.kept)
    ensures Covered(f, steps + [last])
  {
    assert (steps + [last])[..|steps|] == steps;
  }

  lemma ResolvedMore(source: Function, resolved: seq<Reg>, b: Label, k: nat)
    requires b < |source.blocks| && k < |source.blocks[b].body| && Resolved(source, resolved, b, k)
    ensures Resolved(source, resolved, b, k + 1) && Resolved(source, resolved + [source.blocks[b].body[k]], b, k + 1)
  {
    var body := source.blocks[b].body;
    assert body[..k + 1] == body[..k] + [body[k]];
  }

  // A node like r in a block the global search looks into is a twin of r.
  lemma GlobalTwin(c: Search, source: Function, p: Progress, b: Label, k: nat, x: Label, found: Reg)
    requires SearchOf(c, source) && b < |source.blocks| && k < |source.blocks[b].body| && Clean(source, p, b, k)
    requires var r := source.blocks[b].body[k];
             && r < |p.f.nodes| && found != r && TableFits(c.defs, p.f.nodes) && 0 <= c.doms[b] < |c.g|
             && FoundIn(c, p.f.nodes, c.doms[b], p.f.nodes[r], x, found)
    ensures Twin(p.f, source.blocks[b].body[k], found, b, k)
  {
    hide SsaForm, ChainsEnd, MergeAll, EachSame, Covered, FoundIn, DefinedBefore, Shape, PassFree;
    var r := source.blocks[b].body[k];
    CleanNull(source, p, b, k);
    FoundDefined(c, source, p, b, k, x, found);
    NotNull(p.f, r);
  }

  lemma CleanNull(source: Function, p: Progress, b: Label, k: nat)
    requires Place(source, b, k) && Clean(source, p, b, k)
    ensures |p.f.nodes| > 0 && p.f.nodes[0] == Null
  {
  }

  lemma FoundDefined(c: Search, source: Function, p: Progress, b: Label, k: nat, x: Label, found: Reg)
    requires SearchOf(c, source) && b < |source.blocks| && k < |source.blocks[b].body| && Clean(source, p, b, k)
    requires var r := source.blocks[b].body[k];
             && r < |p.f.nodes| && found != r && TableFits(c.defs, p.f.nodes) && 0 <= c.doms[b] < |c.g|
             && FoundIn(c, p.f.nodes, c.doms[b], p.f.nodes[r], x, found)
    ensures var r := source.blocks[b].body[k];
            p.f.nodes[r].Pure? && found < |p.f.nodes| && p.f.nodes[found] == p.f.nodes[r]
    ensures DefinedBefore(p.f, found, b, k)
  {
    hide SsaForm, ChainsEnd, MergeAll, EachSame, Covered, FirstSame, IsIdom, Reachable;
    var r := source.blocks[b].body[k];
    FoundSame(c, p.f.nodes, c.doms[b], p.f.nodes[r], x, found);
    assert c.defs[x] == Candidates(source.nodes, source.blocks[x].body, |source.blocks[x].body|);
    FirstListed(c.listed, p.f.nodes, c.defs[x], p.f.nodes[r], found);
    SkeletonShape(source, p.f);
    if b == 0 {
      assert x == 0;
      assert SameKind(source.nodes[r], p.f.nodes[r]);
      FoundBefore(c.listed, source.nodes, p.f.nodes, source.blocks[0].body, k, found);
    } else {
      AboveIsSdom(c.g, c.doms, x, b);
      assert DefinedBefore(source, found, b, k);
    }
  }

  lemma FirstListed(listed: set<nat>, nodes: seq<Node>, list: seq<Reg>, n: Node, found: Reg)
    requires (forall i :: 0 <= i < |list| ==> list[i] < |nodes|) && FirstSame(listed, nodes, list, n, found)
    ensures found in list && found < |nodes| && SameNode(listed, n, nodes[found])
  {
  }

  lemma NotNull(f: Function, r: Reg)
    requires |f.nodes| > 0 && f.nodes[0] == Null && r < |f.nodes| && f.nodes[r].Pure?
    ensures r > 0
  {
  }

  lemma LocalTwin(source: Function, p: Progress, b: Label, k: nat, other: Reg)
    requires b < |source.blocks| && k < |source.blocks[b].body| && Clean(source, p, b, k) && other in p.resolved
    requires var r := source.blocks[b].body[k]; SameNodes(p.f, r, other)
    ensures Twin(p.f, source.blocks[b].body[k], other, b, k)
  {
    hide SsaForm, ChainsEnd, MergeAll, EachSame, Covered;
    SkeletonShape(source, p.f);
    var i :| 0 <= i < |p.resolved| && p.resolved[i] == other;
    assert DefinedBefore(source, other, b, k);
  }

  lemma AttemptClean(c: Search, source: Function, p: Progress, b: Label, k: nat)
    requires SearchOf(c, source) && b < |source.blocks| && k < |source.blocks[b].body| && Clean(source, p, b, k)
    ensures Clean(source, Attempted(c, p, b, source.blocks[b].body[k]), b, k + 1)
  {
    hide Shape, SsaForm, ChainsEnd, MergeAll, EachSame, Covered, GiveWay, SearchOk, GlobalLike, LocalLike, FoundIn,
         Twin, SameSkeleton;
    var q := source.blocks[b].body[k];
    ListedFits(source, p, b, k);
    assert Final(p.f, q) == q;
    ResolvedMore(source, p.resolved, b, k);
    if Candidate(p.f.nodes[q]) {
      SearchFits(c, source, p.f);
      ParentFits(c, b);
      var n := p.f.nodes[q];
      var found := GlobalLike(c, p.f.nodes, c.doms[b], n);
      GlobalLikeIs(c, p.f.nodes, c.doms[b], n);
      LocalLikeIs(c.listed, p.f.nodes, p.resolved, q);
      var other := LocalLike(c.listed, p.f.nodes, p.resolved, q);
      if found != 0 && q != found {
        var x: Label :| FoundIn(c, p.f.nodes, c.doms[b], n, x, found);
        FoundSame(c, p.f.nodes, c.doms[b], n, x, found);
        GlobalTwin(c, source, p, b, k, x, found);
        CleanMore(source, p, q, found, b, k);
      } else if other != 0 {
        LocalTwin(source, p, b, k, other);
        CleanMore(source, p, q, other, b, k);
      }
    }
  }

  lemma ListedFits(source: Function, p: Progress, b: Label, k: nat)
    requires b < |source.blocks| && k < |source.blocks[b].body| && Clean(source, p, b, k)
    ensures source.blocks[b].body[k] < |p.f.nodes| && !p.f.nodes[source.blocks[b].body[k]].Pass?
  {
    hide SsaForm, ChainsEnd, MergeAll, EachSame, Covered;
  }

  lemma CleanStart(source: Function)
    requires PassFree(source)
    ensures Clean(source, Progress(source, [], []), 0, 0)
  {
    hide SsaForm;
    forall q: Reg | q < |source.nodes| ensures Final(source, q) == q {
    }
  }

  // The theorem: without passes every merge is covered.
  lemma {:induction false} CseIsClean(c: Search, source: Function, b: nat, k: nat)
    requires SearchOf(c, source) && PassFree(source) && Place(source, b, k)
    ensures Clean(source, CseAt(c, source, b, k), b, k)
    decreases b, k
  {
    hide Attempted, SearchOk, Shape, SsaForm, EachSame, MergeAll, ChainsEnd, SameSkeleton, Covered;
    if k > 0 {
      CseIsClean(c, source, b, k - 1);
      AttemptClean(c, source, CseAt(c, source, b, k - 1), b, k - 1);
    } else if b > 0 {
      CseIsClean(c, source, b - 1, |source.blocks[b - 1].body|);
    } else {
      CleanStart(source);
    }
  }

  // ----- Where the pass stops -----

  // A merge has been begun in a graph with a kind of node that is not listed.
  ghost predicate Blocked(known: set<nat>, source: Function, p: Progress)
  {
    p.steps != [] && !AllKnown(known, source)
  }

  lemma {:induction false} MergeAllKnown(known: set<nat>, f: Function, steps: seq<Merge>)
    requires AllKnown(known, f)
    ensures AllKnown(known, MergeAll(f, steps))
  {
    if steps != [] {
      var front, last := steps[..|steps| - 1], steps[|steps| - 1];
      var m := MergeAll(f, front);
      MergeAllKnown(known, f, front);
      if last.gone < |m.nodes| {
        StillKnown(known, m, SwappedFunction(m, last.gone, last.kept), last.gone, last.kept);
      }
    }
  }

  lemma KnownNow(known: set<nat>, source: Function, p: Progress)
    requires Reached(source, p) && !Blocked(known, source, p)
    ensures AllKnown(known, p.f) <==> AllKnown(known, source)
  {
    hide AllKnown, Shape, ChainsEnd, EachSame;
    if AllKnown(known, source) { MergeAllKnown(known, source, p.steps); }
  }

  lemma GiveWayBlocked(known: set<nat>, source: Function, p: Progress, r: Reg, s: Reg)
    ensures Blocked(known, source, GiveWay(p, r, s)) <==> !AllKnown(known, source)
  {
  }

  // A merge once begun is not taken back.
  lemma {:induction false} StepsGrow(c: Search, source: Function, b: nat, k: nat, b1: nat, k1: nat)
    requires SearchOk(c) && |c.g| == |source.blocks| && Place(source, b, k) && Place(source, b1, k1)
    requires (b < b1 || (b == b1 && k <= k1)) && CseAt(c, source, b, k).steps != []
    ensures CseAt(c, source, b1, k1).steps != []
    decreases b1, k1
  {
    hide SearchOk, Final, GlobalLike, LocalLike;
    if b == b1 && k == k1 {
    } else if k1 > 0 {
      StepsGrow(c, source, b, k, b1, k1 - 1);
    } else {
      StepsGrow(c, source, b, k, b1 - 1, |source.blocks[b1 - 1].body|);
    }
  }

  // ----- The pass -----

  class Eliminator {
    ghost const source: Function
    const listed: set<nat>
    const known: set<nat>
    const doms: array<int>
    const defs: seq<seq<Reg>>
    var f: Function
    var resolved: seq<Reg>
    ghost var steps: seq<Merge>

    // cse_create
    constructor (source: Function, listed: set<nat>, known: set<nat>, doms: array<int>)
      requires CseInput(source) && ExactDoms(GraphOf(source), doms[..])
      ensures Valid() && this.source == source && this.doms == doms && this.listed == listed && this.known == known
      ensures Now() == Progress(source, [], [])
    {
      this.source, this.listed, this.known, this.doms := source, listed, known, doms;
      f, resolved, steps := source, [], [];
      defs := DefTable(source);
    }

    ghost function Table(): Search
      reads doms
    {
      Search(GraphOf(source), doms[..], listed, defs)
    }

    ghost function Now(): Progress
      reads this
    {
      Progress(f, resolved, steps)
    }

    ghost predicate Valid()
      reads this, doms
    {
      SearchOf(Table(), source) && Reached(source, Now())
    }

    // find_similar_def_in_bb
    method FindSimilarDefInBb(list: seq<Reg>, r: Reg) returns (found: Reg)
      requires r < |f.nodes| && forall i :: 0 <= i < |list| ==> list[i] < |f.nodes|
      ensures found == FirstLike(listed, f.nodes, list, f.nodes[r])
    {
      var i: nat := 0;
      while i < |list|
        invariant i <= |list|
        invariant FirstLike(listed, f.nodes, list, f.nodes[r]) == FirstLike(listed, f.nodes, list[i..], f.nodes[r])
      {
        assert list[i..][1..] == list[i + 1..];
        if SameNode(listed, f.nodes[r], f.nodes[list[i]]) {
          return list[i];
        }
        i := i + 1;
      }
      return 0;
    }

    // walk_dominators_for_similar_def
    method WalkDominators(curr: Label, r: Reg) returns (found: Reg)
      requires Valid() && curr < |f.blocks| && r < |f.nodes|
      ensures |Table().g| == |f.blocks| && found == GlobalLike(Table(), f.nodes, curr, f.nodes[r])
      decreases Rank(GraphOf(source), curr)
    {
      hide Reached, ExactDoms, Searched, DefTable, Shape, Rank;
      WalkFacts(Table(), source, Now(), curr);
      var parent: Label := doms[curr];
      if parent != 0 && curr != parent {
        found := WalkDominators(parent, r);
        if found != 0 {
          return;
        }
      }
      found := FindSimilarDefInBb(defs[curr], r);
    }

    // The loop over the registers resolved in this block.
    method FindLocal(r: Reg) returns (other: Reg)
      requires r < |f.nodes| && forall j :: 0 <= j < |resolved| ==> resolved[j] < |f.nodes|
      ensures other == LocalLike(listed, f.nodes, resolved, r)
    {
      var i: nat := 0;
      while i < |resolved|
        invariant i <= |resolved|
        invariant LocalLike(listed, f.nodes, resolved, r) == LocalLike(listed, f.nodes, resolved[i..], r)
      {
        assert resolved[i..][1..] == resolved[i + 1..];
        if r != resolved[i] && SameNode(listed, f.nodes[r], f.nodes[resolved[i]]) {
          return resolved[i];
        }
        i := i + 1;
      }
      return 0;
    }

    // The loop along a chain of passes.
    method FindFinal(q: Reg) returns (r: Reg)
      requires ChainsEnd(f) && q < |f.nodes|
      ensures r == Final(f, q) < |f.nodes|
    {
      hide ChainsEnd;
      ChainEnds(f, q);
      r := q;
      ghost var n: nat := |f.nodes|;
      while f.nodes[r].Pass?
        invariant r < |f.nodes| && Chase(f.nodes, r, n) == Final(f, q)
        decreases n
      {
        r := f.nodes[r].src;
        n := n - 1;
      }
    }

    // r gives way to s.
    method Replace(r: Reg, s: Reg) returns (ok: bool)
      requires Shape(f) && r < |f.nodes|
      modifies `f, `steps
      ensures ok <==> AllKnown(known, old(f))
      ensures ok ==> Now() == GiveWay(old(Now()), r, s)
    {
      hide Shape;
      var m := FindReplace(f, r, s, known);
      if m.None? {
        return false;
      }
      SwappedIs(f, m.value, r, s);
      f := m.value.(nodes := m.value.nodes[r := Null]);
      steps := steps + [Merge(r, s)];
      return true;
    }

    // cse_attempt on register q of block bb.
    method Attempt(bb: Label, q: Reg) returns (ok: bool)
      requires Valid() && bb < |source.blocks| && q < |source.nodes| && ResolvedFits(Now())
      requires !Blocked(known, source, Now())
      modifies `f, `steps, `resolved
      ensures |Table().g| == |source.blocks| && SearchOk(Table())
      ensures ok <==> !Blocked(known, source, Attempted(Table(), old(Now()), bb, q))
      ensures ok ==> Valid() && ResolvedFits(Now()) && Now() == Attempted(Table(), old(Now()), bb, q)
    {
      hide Reached, ExactDoms, Searched, DefTable, Shape, Rank, GlobalLike, LocalLike, Final, ChainsEnd, GiveWay,
           SearchOf;
      ghost var was := Now();
      AttemptFacts(Table(), source, was, bb);
      AttemptKeeps(Table(), source, was, bb, q);
      AttemptFits(Table(), source, was, bb, q);
      KnownNow(known, source, was);
      var r := FindFinal(q);
      if Candidate(f.nodes[r]) {
        var found := WalkDominators(doms[bb], r);
        if found != 0 && r != found {
          GiveWayBlocked(known, source, was, r, found);
          ok := Replace(r, found);
          return;
        }
        var other := FindLocal(r);
        if other != 0 {
          GiveWayBlocked(known, source, was, r, other);
          ok := Replace(r, other);
          return;
        }
        resolved := resolved + [r];
      }
      return true;
    }

    // One block.
    method RunBlock(bb: Label) returns (ok: bool)
      requires Valid() && bb < |source.blocks| && |Table().g| == |source.blocks|
      requires Now().(resolved := []) == CseAt(Table(), source, bb, 0) && !Blocked(known, source, Now())
      modifies `f, `steps, `resolved
      ensures |Table().g| == |source.blocks| && SearchOk(Table())
      ensures ok <==> !Blocked(known, source, CseAt(Table(), source, bb + 1, 0))
      ensures ok ==> Valid() && Now().(resolved := []) == CseAt(Table(), source, bb + 1, 0)
    {
      hide Reached, ExactDoms, DefTable, Shape, Attempted, SearchOf, ResolvedFits;
      BlockFacts(Table(), source, Now(), bb);
      resolved := [];
      var k: nat := 0;
      while k < |f.blocks[bb].body|
        invariant Valid() && bb < |f.blocks| && f.blocks[bb].body == source.blocks[bb].body && ResolvedFits(Now())
        invariant k <= |f.blocks[bb].body| && |Table().g| == |source.blocks| && Now() == CseAt(Table(), source, bb, k)
        invariant !Blocked(known, source, Now())
        decreases |source.blocks[bb].body| - k
      {
        BodyFacts(source, Now(), bb, k);
        ok := Attempt(bb, f.blocks[bb].body[k]);
        if !ok {
          StepsGrow(Table(), source, bb, k + 1, bb + 1, 0);
          return;
        }
        BlockFacts(Table(), source, Now(), bb);
        k := k + 1;
      }
      return true;
    }
  }

  ghost predicate ResolvedFits(p: Progress)
  {
    forall i :: 0 <= i < |p.resolved| ==> p.resolved[i] < |p.f.nodes|
  }

  lemma WalkFacts(c: Search, source: Function, p: Progress, curr: Label)
    requires SearchOf(c, source) && Reached(source, p) && curr < |p.f.blocks|
    ensures |c.g| == |p.f.blocks| == |c.doms| == |c.defs| && 0 <= c.doms[curr] < |c.g| && SearchOk(c)
    ensures c.doms[curr] != 0 ==> Rank(c.g, c.doms[curr]) < Rank(c.g, curr)
    ensures forall i :: 0 <= i < |c.defs[curr]| ==> c.defs[curr][i] < |p.f.nodes|
  {
    ParentFits(c, curr);
    SearchedParent(c.g, c.doms, curr);
    SearchFits(c, source, p.f);
  }

  lemma ChainEnds(f: Function, q: Reg)
    requires ChainsEnd(f) && q < |f.nodes|
    ensures Final(f, q) < |f.nodes| && !f.nodes[Final(f, q)].Pass?
  {
  }

  lemma AttemptFacts(c: Search, source: Function, p: Progress, bb: Label)
    requires SearchOf(c, source) && Reached(source, p) && bb < |source.blocks|
    ensures |p.f.nodes| == |source.nodes| && |p.f.blocks| == |source.blocks| == |c.g| == |c.doms|
    ensures 0 <= c.doms[bb] < |c.g| && SearchOk(c) && Shape(p.f) && ChainsEnd(p.f)
  {
    ParentFits(c, bb);
  }

  lemma AttemptFits(c: Search, source: Function, p: Progress, bb: Label, q: Reg)
    requires SearchOf(c, source) && Reached(source, p) && bb < |source.blocks| && ResolvedFits(p)
    requires |c.g| == |source.blocks| && SearchOk(c)
    ensures ResolvedFits(Attempted(c, p, bb, q))
  {
    hide Shape, ChainsEnd, MergeAll, EachSame, GlobalLike, LocalLike, Final;
  }

  lemma BlockFacts(c: Search, source: Function, p: Progress, bb: Label)
    requires SearchOf(c, source) && Reached(source, p) && bb < |source.blocks|
    ensures bb < |p.f.blocks| && p.f.blocks[bb].body == source.blocks[bb].body && |c.g| == |source.blocks|
    ensures SearchOk(c)
    ensures Reached(source, p.(resolved := [])) && ResolvedFits(p.(resolved := []))
  {
  }

  lemma BodyFacts(source: Function, p: Progress, bb: Label, k: nat)
    requires Reached(source, p) && bb < |source.blocks| && k < |source.blocks[bb].body|
    ensures source.blocks[bb].body[k] < |source.nodes|
  {
  }

  lemma InputFits(f: Function)
    requires CseInput(f)
    ensures Shape(f) && WellFormed(GraphOf(f)) && |GraphOf(f)| == |f.blocks| > 0
    ensures IsPredTable(GraphOf(f), PredTable(GraphOf(f)))
  {
  }

  lemma CseStart(c: Search, f: Function)
    requires SearchOf(c, f)
    ensures SearchOk(c) && |c.g| == |f.blocks| && CseAt(c, f, 0, 0) == Progress(f, [], [])
  {
  }

  lemma WhenUnsupported(g: Graph)
    requires WellFormed(g)
    ensures Unsupported(g) <==> NoTable(g) || !FirstPredsLater(g, PredTable(g))
  {
  }

  // cse. It stops at a tb_todo() or an assert on the way to the dominators, or with the first
  // merge in a graph that holds a kind of node which find-and-replace does not list.
  method RunCse(f: Function, listed: set<nat>, known: set<nat>) returns (r: Option<Function>, ghost c: Search)
    requires CseInput(f)
    ensures !Unsupported(GraphOf(f)) ==> SearchOf(c, f) && c.listed == listed && |c.g| == |f.blocks|
    ensures r.None? <==> Unsupported(GraphOf(f)) || Blocked(known, f, CseAt(c, f, |f.blocks|, 0))
    ensures r.Some? ==> r.value == CseAt(c, f, |f.blocks|, 0).f
  {
    hide ExactDoms, FirstPredsLater, IsPredTable, CseInput, Unsupported, DefTable, Shape, SearchOf, WellFormed, CseAt,
         Reached;
    InputFits(f);
    var g := GraphOf(f);
    WhenUnsupported(g);
    c := Search(g, [], listed, []);
    var ps := GetPredecessors(g);
    if ps.None? {
      return None, c;
    }
    var doms := new int[|g|];
    var ok := GetDominators(g, ps.value, doms);
    if !ok {
      return None, c;
    }
    var e := new Eliminator(f, listed, known, doms);
    c := e.Table();
    CseStart(c, f);
    var bb: nat := 0;
    while bb < |f.blocks|
      invariant bb <= |f.blocks| && e.Valid() && e.source == f && e.Table() == c && |c.g| == |f.blocks| && SearchOk(c)
      invariant e.Now().(resolved := []) == CseAt(c, f, bb, 0) && !Blocked(known, f, e.Now())
    {
      ok := e.RunBlock(bb);
      if !ok {
        StepsGrow(c, f, bb + 1, 0, |f.blocks|, 0);
        return None, c;
      }
      bb := bb + 1;
    }
    return Some(e.f), c;
  }

  // The theorem. The graph stays in SSA form throughout if and only if every merge is covered;
  // then every run visits the same blocks with the same effects and outcome; and a graph without
  // passes is such a graph.
  lemma CsePreservesRuns<V(!new), W(!new)>(sem: Sem<V, W>, c: Search, f: Function, w: W, n: nat)
    requires SearchOf(c, f) && CseInput(f) && SsaForm(f) && |c.g| == |f.blocks|
    ensures var p := CseAt(c, f, |f.blocks|, 0);
            && (Covered(f, p.steps) <==> AlwaysSsa(f, p.steps))
            && (Covered(f, p.steps) ==>
                  Shape(p.f) && SameBut(sem, Gone(p.steps), Run(sem, {}, f, w, n), Run(sem, {}, p.f, w, n)))
            && (PassFree(f) ==> Covered(f, p.steps))
  {
    hide Covered, AlwaysSsa, PassFree, SearchOk, Shape, SsaForm, CseAt, EachSame, ChainsEnd, Run, SameBut;
    var p := CseAt(c, f, |f.blocks|, 0);
    CseMergesSame(c, f, |f.blocks|, 0);
    CoveredIff(f, p.steps);
    if Covered(f, p.steps) { CoveredPreservesRuns(sem, f, p.steps, w, n); }
    if PassFree(f) { CseIsClean(c, f, |f.blocks|, 0); }
  }

  lemma SkeletonTrans(f: Function, g: Function, h: Function)
    requires SameSkeleton(f, g) && SameSkeleton(g, h)
    ensures SameSkeleton(f, h)
  {
  }

  lemma DefsFit(f: Function)
    requires Shape(f)
    ensures forall b: Label, i :: b < |f.blocks| && 0 <= i < |DefTable(f)[b]| ==> DefTable(f)[b][i] < |f.nodes|
  {
    forall b: Label, i | b < |f.blocks| && 0 <= i < |DefTable(f)[b]| ensures DefTable(f)[b][i] < |f.nodes| {
      assert DefTable(f)[b][i] in DefTable(f)[b];
    }
  }

  // generate_def_table
  function DefTable(f: Function): (t: seq<seq<Reg>>)
    requires Shape(f)
    ensures |t| == |f.blocks|
    ensures forall b: Label :: b < |t| ==> t[b] == Candidates(f.nodes, f.blocks[b].body, |f.blocks[b].body|)
  {
    seq(|f.blocks|, b requires 0 <= b < |f.blocks| => Candidates(f.nodes, f.blocks[b].body, |f.blocks[b].body|))
  }

}
