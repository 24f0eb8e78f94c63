// src/tb/tb_analysis.c: tb_get_dominance_frontiers.

module Frontiers {
  import opened Finite
  import opened Cfg
  import opened Predecessors
  import opened DomTree
  import opened Dominators

  // ----- When the runner loop stops -----

  // k steps along the table of dominators.
  ghost function Follow(D: Doms, r: Label, k: nat): int
    requires r < |D| && forall b :: 0 <= b < |D| ==> 0 <= D[b] < |D|
    decreases k
  {
    if k == 0 then r else Follow(D, D[r], k - 1)
  }

  ghost predicate Stops(D: Doms, r: Label, stop: int)
    requires r < |D| && forall b :: 0 <= b < |D| ==> 0 <= D[b] < |D|
  {
    exists k: nat :: Follow(D, r, k) == stop
  }

  lemma {:induction false} DomFollow(g: Graph, D: Doms, x: Label, b: Label) returns (k: nat)
    requires ExactDoms(g, D) && b < |g| && Reachable(g, b) && Dom(g, x, b)
    ensures Follow(D, b, k) == x
    decreases Depth(g, b)
  {
    if x == b {
      k := 0;
    } else {
      if b == 0 { DomEntry(g, x); }
      var d: Label := D[b];
      DomReachable(g, d, b);
      IdomShallower(g, d, b);
      k := DomFollow(g, D, x, d);
      k := k + 1;
    }
  }

  lemma {:induction false} FollowEntry(D: Doms, k: nat)
    requires |D| > 0 && D[0] == 0 && forall b :: 0 <= b < |D| ==> 0 <= D[b] < |D|
    ensures Follow(D, 0, k) == 0
  {
    if k > 0 { FollowEntry(D, k - 1); }
  }

  // The runner that starts at the predecessor a of b reaches doms[b] exactly when a is
  // reachable or b hangs below the entry; otherwise it circles at the entry for ever.
  lemma RunnerStops(g: Graph, D: Doms, a: Label, b: Label)
    requires ExactDoms(g, D) && 0 < b < |g| && Edge(g, a, b)
    ensures Stops(D, a, D[b]) <==> Reachable(g, a) || D[b] == 0
  {
    if Reachable(g, a) {
      StepReachable(g, a, b);
      SdomPred(g, D[b], a, b);
      var k := DomFollow(g, D, D[b], a);
    } else if D[b] == 0 {
      EntryReachable(g);
      assert Follow(D, a, 1) == Follow(D, D[a], 0) == 0;
    } else if Stops(D, a, D[b]) {
      var k: nat :| Follow(D, a, k) == D[b];
      EntryReachable(g);
      if k == 0 {
        DomReachable(g, a, b);
      } else {
        FollowEntry(D, k - 1);
      }
    }
  }

  // The source's loops end: no runner starts where it would circle.
  ghost predicate AllRunnersStop(g: Graph, preds: seq<seq<Label>>, D: Doms)
    requires ExactDoms(g, D) && IsPredTable(g, preds)
  {
    forall b: Label, k :: 0 < b < |g| && |preds[b]| >= 2 && 0 <= k < |preds[b]| ==>
      RunsFrom(g, D, preds[b][k], b)
  }

  ghost predicate RunsFrom(g: Graph, D: Doms, a: Label, b: Label)
    requires ExactDoms(g, D) && b < |g|
  {
    a < |g| && Stops(D, a, D[b])
  }

  // So the loops end exactly when every block that has an unreachable predecessor beside
  // another one hangs below the entry; in particular when all blocks are reachable.
  lemma AllRunnersStopIff(g: Graph, preds: seq<seq<Label>>, D: Doms)
    requires ExactDoms(g, D) && IsPredTable(g, preds)
    ensures AllRunnersStop(g, preds, D) <==>
              forall b: Label, k :: 0 < b < |g| && |preds[b]| >= 2 && 0 <= k < |preds[b]| ==>
                Reachable(g, preds[b][k]) || D[b] == 0
  {
    forall b: Label, k | 0 < b < |g| && |preds[b]| >= 2 && 0 <= k < |preds[b]|
      ensures RunsFrom(g, D, preds[b][k], b) <==> Reachable(g, preds[b][k]) || D[b] == 0
    {
      assert preds[b][k] in preds[b];
      RunnerStops(g, D, preds[b][k], b);
    }
  }

  // ----- The lists -----

  // The runner from a to doms[b] passes x.
  ghost predicate Via(g: Graph, x: Label, a: Label, b: Label)
  {
    if Reachable(g, a) then Dom(g, x, a) && !Sdom(g, x, b) else x == a
  }

  ghost function RowList(g: Graph, x: Label, b: Label, ps: seq<Label>): seq<Label>
  {
    if ps == [] then []
    else RowList(g, x, b, ps[..|ps| - 1]) + (if Via(g, x, ps[|ps| - 1], b) then [b] else [])
  }

  // The list of x after the blocks below n: one entry for each runner that passes x.
  ghost function FrontierList(g: Graph, preds: seq<seq<Label>>, x: Label, n: nat): seq<Label>
    requires n <= |preds|
  {
    if n == 0 then []
    else FrontierList(g, preds, x, n - 1) +
         (if |preds[n - 1]| >= 2 then RowList(g, x, n - 1, preds[n - 1]) else [])
  }

  lemma DomStep(g: Graph, D: Doms, x: Label, r: Label)
    requires ExactDoms(g, D) && 0 < r < |g| && Reachable(g, r)
    ensures Dom(g, x, r) <==> x == r || Dom(g, x, D[r])
    ensures !Dom(g, r, D[r])
  {
    var d: Label := D[r];
    assert IsIdom(g, d, r);
    DomReachable(g, d, r);
    if Dom(g, x, d) { DomTrans(g, x, d, r); }
    if Dom(g, r, d) { DomAntisym(g, r, d); }
  }

  // Strict dominators of b are the dominators of doms[b].
  lemma SdomIsDomOfIdom(g: Graph, D: Doms, x: Label, b: Label)
    requires ExactDoms(g, D) && 0 < b < |g| && Reachable(g, b)
    ensures Sdom(g, x, b) <==> Dom(g, x, D[b])
  {
    DomStep(g, D, x, b);
  }

  // Where the runner that started at a can be.
  ghost predicate RunnerAt(g: Graph, D: Doms, a: Label, b: Label, r: Label)
    requires ExactDoms(g, D) && b < |g|
  {
    && r < |g|
    && if Reachable(g, a) then Reachable(g, r) && Dom(g, D[b], r) && Dom(g, r, a)
       else (r == a || r == 0) && D[b] == 0 && a != 0
  }

  // The blocks it has passed on its way from a to r.
  ghost predicate Passed(g: Graph, x: Label, a: Label, r: Label)
  {
    if Reachable(g, a) then Dom(g, x, a) && !Dom(g, x, r) else x == a && r != a
  }

  lemma RunStarts(g: Graph, D: Doms, a: Label, b: Label)
    requires ExactDoms(g, D) && 0 < b < |g| && Edge(g, a, b) && RunsFrom(g, D, a, b)
    ensures RunnerAt(g, D, a, b, a) && forall x: Label :: !Passed(g, x, a, a)
  {
    RunnerStops(g, D, a, b);
    if Reachable(g, a) {
      StepReachable(g, a, b);
      SdomPred(g, D[b], a, b);
    }
    EntryReachable(g);
  }

  lemma RunStep(g: Graph, D: Doms, a: Label, b: Label, r: Label)
    requires ExactDoms(g, D) && 0 < b < |g| && RunnerAt(g, D, a, b, r) && r != D[b]
    ensures D[r] < |g| && RunnerAt(g, D, a, b, D[r])
    ensures forall x: Label :: Passed(g, x, a, D[r]) <==> Passed(g, x, a, r) || x == r
    ensures !Passed(g, r, a, r)
    ensures if Reachable(g, a) then Depth(g, D[r]) < Depth(g, r) else D[r] < r
  {
    if Reachable(g, a) {
      if r == 0 { DomEntry(g, D[b]); }
      var d: Label := D[r];
      assert IsIdom(g, d, r);
      DomReachable(g, d, r);
      IdomShallower(g, d, r);
      SdomIsDomOfIdom(g, D, D[b], r);
      DomTrans(g, d, r, a);
      forall x: Label ensures Passed(g, x, a, d) <==> Passed(g, x, a, r) || x == r {
        DomStep(g, D, x, r);
        if Dom(g, x, r) { DomTrans(g, x, r, a); }
      }
    } else {
      assert r == a;
    }
  }

  lemma RunEnds(g: Graph, D: Doms, a: Label, b: Label)
    requires ExactDoms(g, D) && 0 < b < |g| && Edge(g, a, b) && RunnerAt(g, D, a, b, D[b])
    ensures forall x: Label :: Passed(g, x, a, D[b]) <==> Via(g, x, a, b)
  {
    if Reachable(g, a) {
      StepReachable(g, a, b);
      forall x: Label ensures Passed(g, x, a, D[b]) <==> Via(g, x, a, b) {
        SdomIsDomOfIdom(g, D, x, b);
      }
    }
  }

  // One runner.
  method FollowRunner(g: Graph, doms: array<int>, df: array<seq<Label>>, a: Label, bb: Label)
    requires ExactDoms(g, doms[..]) && df.Length == |g|
    requires 0 < bb < |g| && Edge(g, a, bb) && RunsFrom(g, doms[..], a, bb)
    modifies df
    ensures forall x: Label :: x < |g| ==>
              df[x] == old(df[x]) + (if Via(g, x, a, bb) then [bb] else [])
  {
    ghost var D := doms[..];
    hide RunnerAt, Passed, ExactDoms, Via, RunsFrom;
    DomsInRange(g, D);
    RunStarts(g, D, a, bb);
    var runner: Label := a;
    while runner != doms[bb]
      invariant runner < |g| && RunnerAt(g, D, a, bb, runner)
      invariant forall x: Label :: x < |g| ==>
                  df[x] == old(df[x]) + (if Passed(g, x, a, runner) then [bb] else [])
      decreases if Reachable(g, a) then Depth(g, runner) else runner
    {
      RunStep(g, D, a, bb, runner);
      df[runner] := df[runner] + [bb];
      runner := doms[runner];
    }
    RunEnds(g, D, a, bb);
  }

  lemma DomsInRange(g: Graph, D: Doms)
    requires ExactDoms(g, D)
    ensures |D| == |g| && forall b: Label :: b < |g| ==> 0 <= D[b] < |g|
  {
  }

  // tb_get_dominance_frontiers
  method GetDominanceFrontiers(g: Graph, preds: seq<seq<Label>>, doms: array<int>) returns (df: array<seq<Label>>)
    requires IsPredTable(g, preds) && ExactDoms(g, doms[..])
    requires AllRunnersStop(g, preds, doms[..])
    ensures fresh(df) && df.Length == |g|
    ensures forall x: Label :: x < |g| ==> df[x] == FrontierList(g, preds, x, |g|)
  {
    hide FrontierList, ExactDoms, AllRunnersStop;
    df := new seq<Label>[|g|](_ => []);
    var bb: nat := 0;
    ListStarts(g, preds);
    while bb < |g|
      invariant bb <= |g|
      invariant forall x: Label :: x < |g| ==> df[x] == FrontierList(g, preds, x, bb)
    {
      ListGrows(g, preds, bb);
      if |preds[bb]| >= 2 {
        RunRow(g, preds, doms, df, bb);
      }
      bb := bb + 1;
    }
  }

  lemma ListStarts(g: Graph, preds: seq<seq<Label>>)
    ensures forall x: Label :: FrontierList(g, preds, x, 0) == []
  {
  }

  lemma ListGrows(g: Graph, preds: seq<seq<Label>>, b: nat)
    requires b < |preds|
    ensures forall x: Label :: FrontierList(g, preds, x, b + 1) == FrontierList(g, preds, x, b) +
              (if |preds[b]| >= 2 then RowList(g, x, b, preds[b]) else [])
  {
  }

  method RunRow(g: Graph, preds: seq<seq<Label>>, doms: array<int>, df: array<seq<Label>>, bb: Label)
    requires IsPredTable(g, preds) && ExactDoms(g, doms[..]) && AllRunnersStop(g, preds, doms[..])
    requires df.Length == |g| && bb < |g| && |preds[bb]| >= 2
    modifies df
    ensures forall x: Label :: x < |g| ==> df[x] == old(df[x]) + RowList(g, x, bb, preds[bb])
  {
    hide ExactDoms, Via;
    var ps := preds[bb];
    var k: nat := 0;
    while k < |ps|
      invariant k <= |ps|
      invariant forall x: Label :: x < |g| ==> df[x] == old(df[x]) + RowList(g, x, bb, ps[..k])
    {
      assert ps[..k + 1][..k] == ps[..k];
      RowEntry(g, preds, doms[..], bb, k);
      FollowRunner(g, doms, df, ps[k], bb);
      k := k + 1;
    }
    assert ps[..k] == ps;
  }

  lemma RowEntry(g: Graph, preds: seq<seq<Label>>, D: Doms, b: Label, k: nat)
    requires IsPredTable(g, preds) && ExactDoms(g, D) && AllRunnersStop(g, preds, D)
    requires b < |g| && |preds[b]| >= 2 && k < |preds[b]|
    ensures b > 0 && Edge(g, preds[b][k], b) && RunsFrom(g, D, preds[b][k], b)
  {
    assert preds[b][k] in preds[b];
  }

  // ----- What the lists hold -----

  lemma {:induction false} InRowList(g: Graph, x: Label, b: Label, ps: seq<Label>, y: Label)
    ensures y in RowList(g, x, b, ps) <==> y == b && exists a :: a in ps && Via(g, x, a, b)
  {
    if ps != [] {
      InRowList(g, x, b, ps[..|ps| - 1], y);
      assert ps == ps[..|ps| - 1] + [ps[|ps| - 1]];
    }
  }

  lemma {:induction false} InFrontierList(g: Graph, preds: seq<seq<Label>>, x: Label, n: nat, y: Label)
    requires n <= |preds|
    ensures y in FrontierList(g, preds, x, n) <==>
              y < n && |preds[y]| >= 2 && exists a :: a in preds[y] && Via(g, x, a, y)
  {
    if n > 0 {
      InFrontierList(g, preds, x, n - 1, y);
      InRowList(g, x, n - 1, preds[n - 1], y);
    }
  }

  // The dominance frontier: x dominates a predecessor of y, but not strictly y itself.
  ghost predicate InFrontier(g: Graph, x: Label, y: Label)
  {
    exists a: Label :: Reachable(g, a) && Edge(g, a, y) && Dom(g, x, a) && !Sdom(g, x, y)
  }

  // A reachable block cannot have itself as only predecessor.
  lemma {:induction false} NotOnlySelf(g: Graph, p: seq<Label>, y: Label)
    requires PathTo(g, p, y) && y != 0
    ensures exists a: Label :: a != y && Reachable(g, a) && Edge(g, a, y)
  {
    PrefixPath(g, p, y, |p| - 2);
    if p[|p| - 2] == y {
      NotOnlySelf(g, p[..|p| - 1], y);
    }
  }

  // Skipping blocks with fewer than two predecessors loses nothing.
  lemma SinglePredNoFrontier(g: Graph, preds: seq<seq<Label>>, x: Label, y: Label)
    requires IsPredTable(g, preds) && 0 < y < |g| && |preds[y]| < 2
    ensures !InFrontier(g, x, y)
  {
    if InFrontier(g, x, y) {
      var a: Label :| Reachable(g, a) && Edge(g, a, y) && Dom(g, x, a) && !Sdom(g, x, y);
      SinglePred(g, preds, a, y);
      forall c: Label | Edge(g, c, y) ensures c == a {
        SinglePred(g, preds, c, y);
      }
      DomOfPreds(g, x, y);
      DomOfPreds(g, a, y);
      StepReachable(g, a, y);
      DomAntisym(g, a, y);
      var p :| PathTo(g, p, y);
      NotOnlySelf(g, p, y);
    }
  }

  // The list of a reachable block x holds exactly the dominance frontier of x, apart from
  // the entry block, which is given no predecessors.
  lemma FrontierExact(g: Graph, preds: seq<seq<Label>>, x: Label, y: Label)
    requires IsPredTable(g, preds) && x < |g| && Reachable(g, x)
    ensures y in FrontierList(g, preds, x, |g|) <==> 0 < y && InFrontier(g, x, y)
  {
    InFrontierList(g, preds, x, |g|, y);
    if y in FrontierList(g, preds, x, |g|) {
      var a :| a in preds[y] && Via(g, x, a, y);
      assert Edge(g, a, y);
    } else if 0 < y && InFrontier(g, x, y) {
      var a: Label :| Reachable(g, a) && Edge(g, a, y) && Dom(g, x, a) && !Sdom(g, x, y);
      assert a in preds[y] && Via(g, x, a, y);
      SinglePredNoFrontier(g, preds, x, y);
    }
  }

  // The mentions of y in the blocks that x dominates, where x does not strictly dominate y.
  ghost function Crossings(g: Graph, x: Label, y: Label, ps: seq<Label>): (js: set<nat>)
    ensures forall j: nat :: j in js <==> j < |ps| && Reachable(g, ps[j]) && Dom(g, x, ps[j]) && !Sdom(g, x, y)
  {
    set j: nat | j in Range(|ps|) && Reachable(g, ps[j]) && Dom(g, x, ps[j]) && !Sdom(g, x, y)
  }

  lemma {:induction false} RowOften(g: Graph, x: Label, b: Label, ps: seq<Label>, y: Label)
    requires Reachable(g, x)
    ensures Count(RowList(g, x, b, ps), y) == if y == b then |Crossings(g, x, b, ps)| else 0
  {
    hide Reachable, Crossings, Count, Via;
    if ps == [] {
      NoCrossings(g, x, b);
      NeverIn(y);
    } else {
      var front := ps[..|ps| - 1];
      RowOften(g, x, b, front, y);
      CrossingsMore(g, x, b, ps);
      CountPush(RowList(g, x, b, front), b, y);
      assert RowList(g, x, b, front) + [] == RowList(g, x, b, front);
    }
  }

  lemma NoCrossings(g: Graph, x: Label, y: Label)
    ensures Crossings(g, x, y, []) == {}
  {
    hide Reachable, Dom, Sdom;
  }

  lemma CrossingsMore(g: Graph, x: Label, y: Label, ps: seq<Label>)
    requires Reachable(g, x) && ps != []
    ensures |Crossings(g, x, y, ps)| ==
              |Crossings(g, x, y, ps[..|ps| - 1])| + if Via(g, x, ps[|ps| - 1], y) then 1 else 0
  {
    hide Reachable, Dom, Sdom, Crossings;
    var k, all, front := |ps| - 1, Crossings(g, x, y, ps), Crossings(g, x, y, ps[..|ps| - 1]);
    forall j: nat | j < k ensures j in front <==> j in all { assert ps[..k][j] == ps[j]; }
    assert k in all <==> Via(g, x, ps[k], y);
    OneMore(all, front, k);
  }

  lemma OneMore(all: set<nat>, front: set<nat>, k: nat)
    requires forall j :: j in front ==> j < k
    requires forall j :: j in all ==> j <= k
    requires forall j: nat :: j < k ==> (j in front <==> j in all)
    ensures |all| == |front| + if k in all then 1 else 0
  {
    assert all == front + if k in all then {k} else {};
  }

  lemma {:induction false} CountConcat(s: seq<Label>, t: seq<Label>, l: Label)
    ensures Count(s + t, l) == Count(s, l) + Count(t, l)
  {
    if t == [] {
      assert s + t == s;
    } else {
      CountConcat(s, t[..|t| - 1], l);
      assert (s + t)[..|s + t| - 1] == s + t[..|t| - 1];
    }
  }

  lemma {:induction false} ListOften(g: Graph, preds: seq<seq<Label>>, x: Label, n: nat, y: Label)
    requires Reachable(g, x) && n <= |preds|
    ensures Count(FrontierList(g, preds, x, n), y) ==
              if y < n && |preds[y]| >= 2 then |Crossings(g, x, y, preds[y])| else 0
  {
    hide Reachable, Count, Crossings;
    if n == 0 {
      NeverIn(y);
    } else {
      ListOften(g, preds, x, n - 1, y);
      var row := if |preds[n - 1]| >= 2 then RowList(g, x, n - 1, preds[n - 1]) else [];
      CountConcat(FrontierList(g, preds, x, n - 1), row, y);
      NeverIn(y);
      RowOften(g, x, n - 1, preds[n - 1], y);
    }
  }

  lemma NeverIn(y: Label)
    ensures Count([], y) == 0
  {
  }

  lemma {:induction false} ListAscends(g: Graph, preds: seq<seq<Label>>, x: Label, n: nat)
    requires n <= |preds|
    ensures Ascending(FrontierList(g, preds, x, n))
  {
    hide Via;
    if n > 0 {
      ListAscends(g, preds, x, n - 1);
      var front, list := FrontierList(g, preds, x, n - 1), FrontierList(g, preds, x, n);
      forall i, j | 0 <= i < j < |list| ensures list[i] <= list[j] {
        if j >= |front| {
          InRowList(g, x, n - 1, preds[n - 1], list[j]);
          assert list[i] in list;
          InFrontierList(g, preds, x, n, list[i]);
        }
      }
    }
  }

  // A block is listed once for each of its mentions that x is passed on the way up from, and the
  // lists are in block order.
  lemma FrontierOften(g: Graph, preds: seq<seq<Label>>, x: Label, y: Label)
    requires IsPredTable(g, preds) && x < |g| && Reachable(g, x) && y < |g|
    ensures Count(FrontierList(g, preds, x, |g|), y) == |Crossings(g, x, y, preds[y])|
    ensures Ascending(FrontierList(g, preds, x, |g|))
  {
    hide Reachable, Dom, Sdom, FrontierList, Count;
    ListAscends(g, preds, x, |g|);
    ListOften(g, preds, x, |g|, y);
    if |preds[y]| < 2 {
      forall j: nat | j < |preds[y]| ensures j !in Crossings(g, x, y, preds[y]) {
        assert preds[y][j] in preds[y];
        if j in Crossings(g, x, y, preds[y]) {
          assert PredRow(g, y, preds[y]) && InFrontier(g, x, y);
          SinglePredNoFrontier(g, preds, x, y);
        }
      }
      assert Crossings(g, x, y, preds[y]) == {};
    }
  }
}
