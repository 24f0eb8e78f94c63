// src/tb/tb_analysis.c: the recursive postorder walk.

module Postorder {
  import opened Finite
  import opened Cfg

  // Position of a block in a traversal; -1 when the block is not in it.
  ghost function Pos(order: seq<Label>, l: int): (i: int)
    ensures -1 <= i < |order|
    ensures i >= 0 ==> order[i] == l
    ensures i >= 0 <==> l in order
  {
    if order == [] then -1
    else if order[|order| - 1] == l then |order| - 1
    else Pos(order[..|order| - 1], l)
  }

  lemma PosAt(order: seq<Label>, i: nat)
    requires Distinct(order) && i < |order|
    ensures Pos(order, order[i]) == i
  {
  }

  // What the walk from block 0 leaves behind: every reachable block once, the entry last,
  // and every other block before one of its predecessors (its parent in the walk).
  ghost predicate IsPostorder(g: Graph, order: seq<Label>)
  {
    && |order| > 0
    && order[|order| - 1] == 0
    && Distinct(order)
    && (forall b: Label :: b in order <==> b < |g| && Reachable(g, b))
    && (forall k :: 0 <= k < |order| - 1 ==> LaterPred(g, order, k))
  }

  ghost predicate LaterPred(g: Graph, order: seq<Label>, k: nat)
    requires k < |order|
  {
    exists m :: k < m < |order| && Edge(g, order[m], order[k])
  }

  // ----- The walk as a function: the blocks it appends to the traversal, in order, when
  // it is started at bb with the blocks in `seen` already marked -----

  ghost predicate InRange(g: Graph, ts: seq<Label>)
  {
    forall i :: 0 <= i < |ts| ==> ts[i] < |g|
  }

  lemma TargetsInRange(g: Graph, b: Label)
    requires WellFormed(g) && b < |g|
    ensures InRange(g, Targets(g[b]))
  {
    forall i | 0 <= i < |Targets(g[b])| ensures Targets(g[b])[i] < |g| {
      assert Targets(g[b])[i] in Targets(g[b]);
    }
  }

  ghost function Walk(g: Graph, seen: set<Label>, bb: Label): seq<Label>
    requires WellFormed(g) && bb < |g|
    decreases Range(|g|) - seen, 0
  {
    TargetsInRange(g, bb);
    if bb in seen then [] else WalkAll(g, seen + {bb}, Targets(g[bb])) + [bb]
  }

  ghost function WalkAll(g: Graph, seen: set<Label>, ts: seq<Label>): seq<Label>
    requires WellFormed(g) && InRange(g, ts)
    decreases Range(|g|) - seen, |ts|
  {
    if ts == [] then []
    else
      var e := Walk(g, seen, ts[0]);
      assert Range(|g|) - (seen + Elems(e)) <= Range(|g|) - seen;
      e + WalkAll(g, seen + Elems(e), ts[1..])
  }

  ghost function PostorderOf(g: Graph): seq<Label>
    requires WellFormed(g)
  {
    Walk(g, {}, 0)
  }

  // The blocks of e are new, distinct and in range, and every edge out of them leads to a
  // block that is marked when e has been appended.
  ghost predicate Appends(g: Graph, seen: set<Label>, e: seq<Label>)
  {
    && Distinct(e)
    && (forall b :: b in e ==> b !in seen && b < |g|)
    && (forall b, t :: b in e && Edge(g, b, t) ==> t in seen || t in e)
  }

  lemma AppendsTwice(g: Graph, seen: set<Label>, e: seq<Label>, f: seq<Label>)
    requires Appends(g, seen, e) && Appends(g, seen + Elems(e), f)
    ensures Appends(g, seen, e + f)
  {
    forall i, j | 0 <= i < j < |e + f| ensures (e + f)[i] != (e + f)[j] {
      if i < |e| <= j {
        assert e[i] in e && f[j - |e|] in f;
      }
    }
  }

  lemma WalkIs(g: Graph, seen: set<Label>, bb: Label)
    requires WellFormed(g) && bb < |g|
    ensures InRange(g, Targets(g[bb]))
    ensures bb in seen ==> Walk(g, seen, bb) == []
    ensures bb !in seen ==> Walk(g, seen, bb) == WalkAll(g, seen + {bb}, Targets(g[bb])) + [bb]
    ensures bb !in seen ==> Range(|g|) - (seen + {bb}) < Range(|g|) - seen
  {
    hide WellFormed, WalkAll, Targets, InRange;
    TargetsInRange(g, bb);
    if bb !in seen { assert bb in Range(|g|) - seen; }
  }

  lemma {:induction false} WalkAppends(g: Graph, seen: set<Label>, bb: Label)
    requires WellFormed(g) && bb < |g|
    ensures Appends(g, seen, Walk(g, seen, bb))
    ensures bb in seen || bb in Walk(g, seen, bb)
    decreases Range(|g|) - seen, 0
  {
    hide *;
    WalkIs(g, seen, bb);
    if bb in seen {
      AppendsNone(g, seen);
    } else {
      WalkAllAppends(g, seen + {bb}, Targets(g[bb]));
      AppendsLast(g, seen, bb, WalkAll(g, seen + {bb}, Targets(g[bb])));
    }
  }

  lemma AppendsNone(g: Graph, seen: set<Label>)
    ensures Appends(g, seen, [])
  {
  }

  lemma AppendsLast(g: Graph, seen: set<Label>, bb: Label, e: seq<Label>)
    requires bb < |g| && bb !in seen && Appends(g, seen + {bb}, e)
    requires forall i :: 0 <= i < |Targets(g[bb])| ==> Targets(g[bb])[i] in seen + {bb} || Targets(g[bb])[i] in e
    ensures Appends(g, seen, e + [bb])
  {
    hide Targets;
  }

  lemma {:induction false} WalkAllAppends(g: Graph, seen: set<Label>, ts: seq<Label>)
    requires WellFormed(g) && InRange(g, ts)
    ensures Appends(g, seen, WalkAll(g, seen, ts))
    ensures forall i :: 0 <= i < |ts| ==> ts[i] in seen || ts[i] in WalkAll(g, seen, ts)
    decreases Range(|g|) - seen, |ts|
  {
    if ts != [] {
      var e := Walk(g, seen, ts[0]);
      var f := WalkAll(g, seen + Elems(e), ts[1..]);
      assert Range(|g|) - (seen + Elems(e)) <= Range(|g|) - seen;
      WalkAppends(g, seen, ts[0]);
      WalkAllAppends(g, seen + Elems(e), ts[1..]);
      AppendsTwice(g, seen, e, f);
      forall i | 0 <= i < |ts| ensures ts[i] in seen || ts[i] in e + f {
        assert i > 0 ==> ts[i] == ts[1..][i - 1];
      }
    }
  }

  // In a stretch of the traversal appended below `root`, every block has a later
  // predecessor in the stretch or is a successor of `root`.
  ghost predicate Below(g: Graph, e: seq<Label>, root: Label)
  {
    forall k :: 0 <= k < |e| ==> LaterPred(g, e, k) || Edge(g, root, e[k])
  }

  ghost predicate Tree(g: Graph, e: seq<Label>, root: Label)
  {
    && e != [] && e[|e| - 1] == root
    && forall k :: 0 <= k < |e| - 1 ==> LaterPred(g, e, k)
  }

  lemma BelowConcat(g: Graph, e1: seq<Label>, e2: seq<Label>, root: Label)
    requires Below(g, e1, root) && Below(g, e2, root)
    ensures Below(g, e1 + e2, root)
  {
    var e := e1 + e2;
    forall k | 0 <= k < |e| ensures LaterPred(g, e, k) || Edge(g, root, e[k]) {
      if k < |e1| {
        if LaterPred(g, e1, k) {
          var m :| k < m < |e1| && Edge(g, e1[m], e1[k]);
          assert e[m] == e1[m];
        }
      } else if LaterPred(g, e2, k - |e1|) {
        var m :| k - |e1| < m < |e2| && Edge(g, e2[m], e2[k - |e1|]);
        assert e[|e1| + m] == e2[m];
      }
    }
  }

  lemma BelowClose(g: Graph, e: seq<Label>, root: Label)
    requires Below(g, e, root)
    ensures Tree(g, e + [root], root)
  {
    var f := e + [root];
    forall k | 0 <= k < |f| - 1 ensures LaterPred(g, f, k) {
      if LaterPred(g, e, k) {
        var m :| k < m < |e| && Edge(g, e[m], e[k]);
        assert f[m] == e[m];
      } else {
        assert Edge(g, f[|e|], f[k]);
      }
    }
  }

  lemma {:induction false} WalkTree(g: Graph, seen: set<Label>, bb: Label)
    requires WellFormed(g) && bb < |g|
    ensures bb !in seen ==> Tree(g, Walk(g, seen, bb), bb)
    decreases Range(|g|) - seen, 0
  {
    TargetsInRange(g, bb);
    if bb !in seen {
      WalkAllBelow(g, seen + {bb}, Targets(g[bb]), bb);
      BelowClose(g, WalkAll(g, seen + {bb}, Targets(g[bb])), bb);
    }
  }

  lemma {:induction false} WalkAllBelow(g: Graph, seen: set<Label>, ts: seq<Label>, root: Label)
    requires WellFormed(g) && InRange(g, ts) && forall i :: 0 <= i < |ts| ==> Edge(g, root, ts[i])
    ensures Below(g, WalkAll(g, seen, ts), root)
    decreases Range(|g|) - seen, |ts|
  {
    if ts != [] {
      var e := Walk(g, seen, ts[0]);
      assert Range(|g|) - (seen + Elems(e)) <= Range(|g|) - seen;
      WalkTree(g, seen, ts[0]);
      WalkAllBelow(g, seen + Elems(e), ts[1..], root);
      BelowConcat(g, e, WalkAll(g, seen + Elems(e), ts[1..]), root);
    }
  }

  // A block with a chain of later predecessors up to a reachable root is reachable.
  lemma {:induction false} TreeReachable(g: Graph, e: seq<Label>, root: Label, k: nat)
    requires Tree(g, e, root) && Reachable(g, root) && k < |e|
    ensures Reachable(g, e[k])
    decreases |e| - k
  {
    if k < |e| - 1 {
      assert LaterPred(g, e, k);
      var m: nat :| k < m < |e| && Edge(g, e[m], e[k]);
      TreeReachable(g, e, root, m);
      StepReachable(g, e[m], e[k]);
    }
  }

  // Everything reachable is in a set that holds the entry and is closed under edges.
  lemma {:induction false} ClosedReaches(g: Graph, v: seq<Label>, p: seq<Label>, b: Label)
    requires 0 in v && PathTo(g, p, b)
    requires forall x, t :: x in v && Edge(g, x, t) ==> t in v
    ensures b in v
  {
    if |p| > 1 {
      PrefixPath(g, p, b, |p| - 2);
      ClosedReaches(g, v, p[..|p| - 1], p[|p| - 2]);
    }
  }

  lemma PostorderOfIsPostorder(g: Graph)
    requires WellFormed(g)
    ensures IsPostorder(g, PostorderOf(g))
  {
    var o := PostorderOf(g);
    WalkAppends(g, {}, 0);
    WalkTree(g, {}, 0);
    EntryReachable(g);
    forall b: Label ensures b in o <==> b < |g| && Reachable(g, b) {
      if b in o {
        var k: nat :| k < |o| && o[k] == b;
        TreeReachable(g, o, 0, k);
      } else if Reachable(g, b) {
        var p :| PathTo(g, p, b);
        ClosedReaches(g, o, p, b);
      }
    }
  }

  // ----- The order of successors -----

  // There is a way from x to y.
  ghost predicate Leads(g: Graph, x: Label, y: Label)
  {
    exists p :: IsPath(g, p) && p[0] == x && p[|p| - 1] == y
  }

  lemma LeadsStep(g: Graph, x: Label, t: Label, y: Label)
    requires Edge(g, x, t) && Leads(g, t, y)
    ensures Leads(g, x, y)
  {
    var p :| IsPath(g, p) && p[0] == t && p[|p| - 1] == y;
    var q := [x] + p;
    forall i | 0 <= i < |q| - 1 ensures Edge(g, q[i], q[i + 1]) {
      if i > 0 { assert Edge(g, p[i - 1], p[i]); }
    }
    assert IsPath(g, q) && q[0] == x && q[|q| - 1] == y;
  }

  lemma LeadsItself(g: Graph, x: Label)
    requires x < |g|
    ensures Leads(g, x, x)
  {
    assert IsPath(g, [x]);
  }

  lemma LeadsThrough(g: Graph, x: Label, y: Label, z: Label)
    requires Leads(g, x, y) && Leads(g, y, z)
    ensures Leads(g, x, z)
  {
    var p :| IsPath(g, p) && p[0] == x && p[|p| - 1] == y;
    LeadsAlong(g, p, z);
  }

  lemma {:induction false} LeadsAlong(g: Graph, p: seq<Label>, z: Label)
    requires IsPath(g, p) && Leads(g, p[|p| - 1], z)
    ensures Leads(g, p[0], z)
  {
    hide Edge, Leads;
    if |p| > 1 {
      LeadsAlong(g, p[1..], z);
      LeadsStep(g, p[0], p[1], z);
    }
  }

  // What is appended below a block can be reached from it.
  lemma {:induction false} WalkLeads(g: Graph, seen: set<Label>, bb: Label, y: Label)
    requires WellFormed(g) && bb < |g| && y in Walk(g, seen, bb)
    ensures Leads(g, bb, y)
    decreases Range(|g|) - seen, 0
  {
    hide Leads;
    TargetsInRange(g, bb);
    LeadsItself(g, bb);
    if y != bb {
      var t := WalkAllLeads(g, seen + {bb}, Targets(g[bb]), y);
      LeadsStep(g, bb, t, y);
    }
  }

  lemma {:induction false} WalkAllLeads(g: Graph, seen: set<Label>, ts: seq<Label>, y: Label) returns (t: Label)
    requires WellFormed(g) && InRange(g, ts) && y in WalkAll(g, seen, ts)
    ensures t in ts && Leads(g, t, y)
    decreases Range(|g|) - seen, |ts|
  {
    hide Leads;
    var e := Walk(g, seen, ts[0]);
    assert Range(|g|) - (seen + Elems(e)) <= Range(|g|) - seen;
    if y in e {
      WalkLeads(g, seen, ts[0], y);
      t := ts[0];
    } else {
      t := WalkAllLeads(g, seen + Elems(e), ts[1..], y);
    }
  }

  // Every block of s is reached from the entry inside s.
  ghost predicate Rooted(g: Graph, s: set<Label>)
  {
    forall x :: x in s ==> RootedAt(g, s, x)
  }

  ghost predicate RootedAt(g: Graph, s: set<Label>, x: Label)
  {
    exists p :: PathTo(g, p, x) && forall y :: y in p ==> y in s
  }

  lemma RootedMore(g: Graph, s: set<Label>, a: Label, x: Label)
    requires Rooted(g, s) && a in s && Edge(g, a, x)
    ensures Rooted(g, s + {x})
  {
    forall y | y in s + {x} ensures RootedAt(g, s + {x}, y) {
      var z := if y in s then y else a;
      assert RootedAt(g, s, z);
      var p :| PathTo(g, p, z) && forall w :: w in p ==> w in s;
      if y in s {
        assert forall w :: w in p ==> w in s + {x};
      } else {
        ExtendPath(g, p, a, x);
        assert forall w :: w in p + [x] ==> w in s + {x};
      }
    }
  }

  lemma RootedEntry(g: Graph)
    requires |g| > 0
    ensures Rooted(g, {0})
  {
    assert PathTo(g, [0], 0);
  }

  // A block that is marked has its dominators marked too.
  lemma RootedDom(g: Graph, s: set<Label>, b: Label, x: Label)
    requires Rooted(g, s) && x in s && Dom(g, b, x)
    ensures b in s
  {
    assert RootedAt(g, s, x);
  }

  // bb can be walked next.
  ghost predicate Next(g: Graph, seen: set<Label>, bb: Label)
  {
    bb in seen || (seen == {} && bb == 0) || exists a :: a in seen && Edge(g, a, bb)
  }

  lemma NextRooted(g: Graph, seen: set<Label>, bb: Label)
    requires |g| > 0 && Rooted(g, seen) && Next(g, seen, bb)
    ensures Rooted(g, seen + {bb})
  {
    if bb in seen {
      assert seen + {bb} == seen;
    } else if a :| a in seen && Edge(g, a, bb) {
      RootedMore(g, seen, a, bb);
    } else {
      RootedEntry(g);
      assert {} + {0} == {0};
    }
  }

  lemma {:induction false} WalkRooted(g: Graph, seen: set<Label>, bb: Label)
    requires WellFormed(g) && bb < |g| && Rooted(g, seen) && Next(g, seen, bb)
    ensures Rooted(g, seen + Elems(Walk(g, seen, bb)))
    decreases Range(|g|) - seen, 0
  {
    hide *;
    WalkFrom(g, seen, bb);
    if bb in seen {
      assert seen + Elems([]) == seen;
    } else {
      NextRooted(g, seen, bb);
      TargetsEdges(g, bb);
      WalkAllRooted(g, seen + {bb}, bb, Targets(g[bb]));
    }
  }

  lemma {:induction false} WalkAllRooted(g: Graph, seen: set<Label>, a: Label, ts: seq<Label>)
    requires WellFormed(g) && InRange(g, ts) && Rooted(g, seen) && a in seen
    requires forall i :: 0 <= i < |ts| ==> Edge(g, a, ts[i])
    ensures Rooted(g, seen + Elems(WalkAll(g, seen, ts)))
    decreases Range(|g|) - seen, |ts|
  {
    hide Rooted;
    if ts == [] {
      assert seen + Elems(WalkAll(g, seen, ts)) == seen;
    } else {
      var e := Walk(g, seen, ts[0]);
      assert Range(|g|) - (seen + Elems(e)) <= Range(|g|) - seen;
      WalkRooted(g, seen, ts[0]);
      WalkAllRooted(g, seen + Elems(e), a, ts[1..]);
      assert seen + Elems(WalkAll(g, seen, ts)) == seen + Elems(e) + Elems(WalkAll(g, seen + Elems(e), ts[1..]));
    }
  }

  // The first target, then the others.
  lemma WalkFirst(g: Graph, seen: set<Label>, t: Label, ts: seq<Label>, e: seq<Label>, after: set<Label>)
    requires WellFormed(g) && t < |g| && InRange(g, [t] + ts) && e == Walk(g, seen, t) && after == seen + Elems(e)
    ensures InRange(g, ts) && WalkAll(g, seen, [t] + ts) == e + WalkAll(g, after, ts)
  {
    hide Walk;
    assert ([t] + ts)[0] == t && ([t] + ts)[1..] == ts;
    assert forall i :: 0 <= i < |ts| ==> ts[i] == ([t] + ts)[i + 1];
  }

  lemma WalkNone(g: Graph, seen: set<Label>)
    requires WellFormed(g)
    ensures WalkAll(g, seen, []) == []
  {
  }

  lemma InRangeParts(g: Graph, xs: seq<Label>, ys: seq<Label>)
    ensures InRange(g, xs + ys) <==> InRange(g, xs) && InRange(g, ys)
  {
    if InRange(g, xs + ys) {
      forall i | 0 <= i < |xs| ensures xs[i] < |g| { assert xs[i] == (xs + ys)[i]; }
      forall i | 0 <= i < |ys| ensures ys[i] < |g| { assert ys[i] == (xs + ys)[|xs| + i]; }
    }
  }

  lemma {:induction false} WalkAllSplit(g: Graph, seen: set<Label>, xs: seq<Label>, ys: seq<Label>)
    requires WellFormed(g) && InRange(g, xs + ys)
    ensures InRange(g, xs) && InRange(g, ys)
    ensures var e := WalkAll(g, seen, xs); WalkAll(g, seen, xs + ys) == e + WalkAll(g, seen + Elems(e), ys)
    decreases |xs|
  {
    hide Walk, WalkAll, InRange, WellFormed;
    InRangeParts(g, xs, ys);
    if xs == [] {
      WalkNone(g, seen);
      assert xs + ys == ys && seen + Elems([]) == seen && [] + WalkAll(g, seen, ys) == WalkAll(g, seen, ys);
    } else {
      var x, rest := xs[0], xs[1..];
      assert xs == [x] + rest && xs + ys == [x] + (rest + ys);
      InRangeParts(g, [x], rest + ys);
      assert x < |g| by { HeadInRange(g, x); }
      var w := Walk(g, seen, x);
      var s := seen + Elems(w);
      WalkFirst(g, seen, x, rest + ys, w, s);
      WalkFirst(g, seen, x, rest, w, s);
      WalkAllSplit(g, s, rest, ys);
      var e := WalkAll(g, s, rest);
      assert s + Elems(e) == seen + Elems(w + e);
      assert w + (e + WalkAll(g, seen + Elems(w + e), ys)) == (w + e) + WalkAll(g, seen + Elems(w + e), ys);
    }
  }

  lemma HeadInRange(g: Graph, x: Label)
    requires InRange(g, [x])
    ensures x < |g|
  {
    assert [x][0] == x;
  }

  lemma WalkSeen(g: Graph, seen: set<Label>, b: Label)
    requires WellFormed(g) && b < |g|
    ensures b in seen ==> Walk(g, seen, b) == []
    ensures b !in seen && Targets(g[b]) == [] ==> Walk(g, seen, b) == [b]
  {
  }

  // A block with a single target.
  lemma WalkOne(g: Graph, seen: set<Label>, b: Label, t: Label)
    requires WellFormed(g) && b < |g| && b !in seen && t < |g| && Targets(g[b]) == [t]
    ensures Walk(g, seen, b) == Walk(g, seen + {b}, t) + [b]
  {
    var e := Walk(g, seen + {b}, t);
    assert [t][1..] == [];
    assert WalkAll(g, seen + {b} + Elems(e), []) == [];
    assert e + [] == e;
  }

  lemma WalkStart(g: Graph)
    requires WellFormed(g) && InRange(g, Targets(g[0]))
    ensures PostorderOf(g) == WalkAll(g, {0}, Targets(g[0])) + [0]
  {
    hide WalkAll;
    assert {} + {0} == {0};
  }

  // x stands before y.
  ghost predicate Earlier(e: seq<Label>, x: Label, y: Label)
  {
    exists i, j :: 0 <= i < j < |e| && e[i] == x && e[j] == y
  }

  lemma EarlierAround(a: seq<Label>, e: seq<Label>, c: seq<Label>, x: Label, y: Label)
    requires Earlier(e, x, y)
    ensures Earlier(a + e + c, x, y)
  {
    var i, j :| 0 <= i < j < |e| && e[i] == x && e[j] == y;
    assert (a + e + c)[|a| + i] == x && (a + e + c)[|a| + j] == y;
  }

  lemma EarlierParts(a: seq<Label>, c: seq<Label>, x: Label, y: Label)
    requires x in a && y in c
    ensures Earlier(a + c, x, y)
  {
    var i :| 0 <= i < |a| && a[i] == x;
    var j :| 0 <= j < |c| && c[j] == y;
    assert (a + c)[i] == x && (a + c)[|a| + j] == y;
  }

  // Block b has the successors `before`, walked in this order, and then t. All ways to t go through
  // b, and none comes from a block of `before`.
  ghost predicate Branches(g: Graph, b: Label, before: seq<Label>, t: Label, rest: seq<Label>)
  {
    && b < |g| && Targets(g[b]) == before + [t] + rest && Sdom(g, b, t)
    && forall x :: x in before ==> !Leads(g, x, t)
  }

  // What has been appended puts x before t, unless x was marked already.
  ghost predicate Sorted(e: seq<Label>, seen: set<Label>, b: Label, x: Label, t: Label)
  {
    b in e && t !in seen ==> t in e && (x in seen || Earlier(e, x, t))
  }

  // What a visit of b appends: first what the blocks before t do, then t.
  lemma BranchParts(g: Graph, seen: set<Label>, b: Label, before: seq<Label>, t: Label, rest: seq<Label>)
    returns (e1: seq<Label>, e2: seq<Label>, e3: seq<Label>)
    requires WellFormed(g) && Branches(g, b, before, t, rest) && b !in seen
    ensures InRange(g, before) && InRange(g, [t]) && InRange(g, rest)
    ensures e1 == WalkAll(g, seen + {b}, before) && e2 == WalkAll(g, seen + {b} + Elems(e1), [t])
    ensures Walk(g, seen, b) == e1 + e2 + e3
  {
    hide Leads, Walk, WalkAll, WellFormed, Sdom, InRange;
    var s := seen + {b};
    WalkFrom(g, seen, b);
    WalkAllSplit(g, s, before + [t], rest);
    WalkAllSplit(g, s, before, [t]);
    e1 := WalkAll(g, s, before);
    e2 := WalkAll(g, s + Elems(e1), [t]);
    e3 := WalkAll(g, s + Elems(e1 + e2), rest) + [b];
    assert e1 + e2 + WalkAll(g, s + Elems(e1 + e2), rest) + [b] == e1 + e2 + e3;
  }

  lemma BranchHere(g: Graph, seen: set<Label>, b: Label, before: seq<Label>, t: Label, rest: seq<Label>, x: Label)
    requires WellFormed(g) && Branches(g, b, before, t, rest) && x in before && b !in seen && t !in seen
    ensures x in seen + {b} || Earlier(Walk(g, seen, b), x, t)
    ensures t in Walk(g, seen, b)
  {
    hide *;
    var e1, e2, e3 := BranchParts(g, seen, b, before, t, rest);
    BranchAdds(g, seen + {b}, b, before, t, rest, x, e1, e2);
    assert t in e1 + e2 + e3;
    if x !in seen + {b} { EarlierOf(e1, e2, e3, x, t); }
  }

  lemma EarlierOf(e1: seq<Label>, e2: seq<Label>, e3: seq<Label>, x: Label, t: Label)
    requires x in e1 && t in e2
    ensures Earlier(e1 + e2 + e3, x, t)
  {
    hide Earlier;
    EarlierParts(e1, e2, x, t);
    EarlierAround([], e1 + e2, e3, x, t);
    assert [] + (e1 + e2) + e3 == e1 + e2 + e3;
  }

  // The blocks before t append x and not t.
  lemma BranchAdds(g: Graph, s: set<Label>, b: Label, before: seq<Label>, t: Label, rest: seq<Label>, x: Label,
                   e1: seq<Label>, e2: seq<Label>)
    requires WellFormed(g) && Branches(g, b, before, t, rest) && x in before && t !in s - {b}
    requires InRange(g, before) && InRange(g, [t])
    requires e1 == WalkAll(g, s, before) && e2 == WalkAll(g, s + Elems(e1), [t])
    ensures (x !in s ==> x in e1) && t in e2
  {
    hide Leads, Walk, WalkAll, WellFormed, Sdom;
    WalkAllAppends(g, s, before);
    WalkAllAppends(g, s + Elems(e1), [t]);
    BranchApart(g, b, before, t, rest);
    if t in e1 { var z := WalkAllLeads(g, s, before, t); }
    assert [t][0] == t;
    var i :| 0 <= i < |before| && before[i] == x;
    assert before[i] in s + Elems(e1);
  }

  lemma BranchApart(g: Graph, b: Label, before: seq<Label>, t: Label, rest: seq<Label>)
    requires Branches(g, b, before, t, rest)
    ensures t != b
  {
  }

  lemma {:induction false} WalkSorted(g: Graph, seen: set<Label>, bb: Label, b: Label, before: seq<Label>, t: Label,
                                      rest: seq<Label>, x: Label)
    requires WellFormed(g) && bb < |g| && Branches(g, b, before, t, rest) && x in before
    requires Rooted(g, seen) && Next(g, seen, bb) && b !in seen
    ensures Sorted(Walk(g, seen, bb), seen, b, x, t)
    decreases Range(|g|) - seen, 0
  {
    hide Leads, Rooted, Next, Earlier, Branches, Walk, WalkAll;
    WalkFrom(g, seen, bb);
    if bb !in seen && bb != b && b in Walk(g, seen, bb) && t !in seen {
      NextRooted(g, seen, bb);
      BelowBranch(g, seen, bb, b, before, t, rest, x);
      var e := WalkAll(g, seen + {bb}, Targets(g[bb]));
      TargetsEdges(g, bb);
      WalkAllSorted(g, seen + {bb}, bb, Targets(g[bb]), b, before, t, rest, x);
      if x !in seen { EarlierAround([], e, [bb], x, t); }
      assert [] + e + [bb] == e + [bb];
    } else if bb == b && t !in seen {
      BranchHere(g, seen, b, before, t, rest, x);
      if x == b { BranchOnce(g, b, before, t, rest); }
    }
  }

  lemma TargetsEdges(g: Graph, bb: Label)
    requires WellFormed(g) && bb < |g|
    ensures forall i :: 0 <= i < |Targets(g[bb])| ==> Edge(g, bb, Targets(g[bb])[i])
  {
    forall i | 0 <= i < |Targets(g[bb])| ensures Edge(g, bb, Targets(g[bb])[i]) {
      assert Targets(g[bb])[i] in Targets(g[bb]);
    }
  }

  // b leads to t, so that no block of `before` leads to b.
  lemma BranchOnce(g: Graph, b: Label, before: seq<Label>, t: Label, rest: seq<Label>)
    requires WellFormed(g) && Branches(g, b, before, t, rest)
    ensures t < |g| && Leads(g, b, t) && forall x :: x in before ==> !Leads(g, x, b) && x != b
  {
    hide Leads, Sdom;
    assert (before + [t] + rest)[|before|] == t;
    assert t in Targets(g[b]);
    LeadsItself(g, t);
    LeadsStep(g, b, t, t);
    LeadsItself(g, b);
    forall x | x in before ensures !Leads(g, x, b) {
      if Leads(g, x, b) { LeadsThrough(g, x, b, t); }
    }
  }

  // A block above b is neither t nor one of `before`.
  lemma BelowBranch(g: Graph, seen: set<Label>, bb: Label, b: Label, before: seq<Label>, t: Label, rest: seq<Label>,
                    x: Label)
    requires WellFormed(g) && bb < |g| && Branches(g, b, before, t, rest) && x in before && bb != b && b !in seen
    requires Rooted(g, seen + {bb}) && b in Walk(g, seen, bb)
    ensures bb != t && bb != x
  {
    WalkLeads(g, seen, bb, b);
    BranchOnce(g, b, before, t, rest);
    hide Leads, WellFormed, Walk;
    if bb == t { RootedDom(g, seen + {bb}, b, t); }
  }

  lemma {:induction false} WalkAllSorted(g: Graph, seen: set<Label>, a: Label, ts: seq<Label>, b: Label,
                                         before: seq<Label>, t: Label, rest: seq<Label>, x: Label)
    requires WellFormed(g) && InRange(g, ts) && Branches(g, b, before, t, rest) && x in before
    requires Rooted(g, seen) && a in seen && (forall i :: 0 <= i < |ts| ==> Edge(g, a, ts[i])) && b !in seen
    ensures Sorted(WalkAll(g, seen, ts), seen, b, x, t)
    decreases Range(|g|) - seen, |ts|
  {
    hide Leads, Rooted, Earlier, Branches, Walk;
    if ts != [] && b in WalkAll(g, seen, ts) && t !in seen {
      var e := Walk(g, seen, ts[0]);
      assert Range(|g|) - (seen + Elems(e)) <= Range(|g|) - seen;
      var f := WalkAll(g, seen + Elems(e), ts[1..]);
      assert Edge(g, a, ts[0]);
      if b in e {
        WalkSorted(g, seen, ts[0], b, before, t, rest, x);
        if x !in seen { EarlierAround([], e, f, x, t); }
        assert [] + e + f == e + f;
      } else {
        WalkRooted(g, seen, ts[0]);
        BranchSdom(g, b, before, t, rest);
        if t in e { RootedDom(g, seen + Elems(e), b, t); }
        WalkAllSorted(g, seen + Elems(e), a, ts[1..], b, before, t, rest, x);
        if x in e {
          EarlierParts(e, f, x, t);
        } else if x !in seen {
          EarlierAround(e, f, [], x, t);
          assert e + f + [] == e + f;
        }
      }
    }
  }

  lemma BranchSdom(g: Graph, b: Label, before: seq<Label>, t: Label, rest: seq<Label>)
    requires Branches(g, b, before, t, rest)
    ensures Dom(g, b, t)
  {
  }

  lemma WalkOrders(g: Graph, b: Label, before: seq<Label>, t: Label, rest: seq<Label>, x: Label)
    requires WellFormed(g) && Reachable(g, b) && Branches(g, b, before, t, rest) && x in before
    ensures Earlier(PostorderOf(g), x, t)
  {
    hide Leads, Earlier, Branches, Walk, Reachable;
    PostorderOfIsPostorder(g);
    assert b < |g| by { hide WellFormed; BranchInRange(g, b, before, t, rest); }
    WalkSorted(g, {}, 0, b, before, t, rest, x);
  }

  lemma BranchInRange(g: Graph, b: Label, before: seq<Label>, t: Label, rest: seq<Label>)
    requires Branches(g, b, before, t, rest)
    ensures b < |g|
  {
  }

  // The theorem: when all ways to the one side of a branch go through the branch, and none comes from
  // the other side, the false side stands before the true side ...
  lemma FalseFirst(g: Graph, b: Label)
    requires WellFormed(g) && Reachable(g, b) && b < |g| && g[b].If?
    requires Sdom(g, b, g[b].ifTrue) && !Leads(g, g[b].ifFalse, g[b].ifTrue)
    ensures Earlier(PostorderOf(g), g[b].ifFalse, g[b].ifTrue)
  {
    hide Leads, Earlier, Sdom, Reachable, PostorderOf;
    var t, f := g[b].ifTrue, g[b].ifFalse;
    assert [f] + [t] + [] == [f, t];
    WalkOrders(g, b, [f], t, [], f);
  }

  // ... and of a switch the default before all entries, and later entries before earlier ones.
  lemma LaterFirst(g: Graph, b: Label, i: nat)
    requires WellFormed(g) && Reachable(g, b) && b < |g| && g[b].Switch? && i < |g[b].entries|
    requires Sdom(g, b, g[b].entries[i].target) && !Leads(g, g[b].default, g[b].entries[i].target)
    requires forall j :: i < j < |g[b].entries| ==> !Leads(g, g[b].entries[j].target, g[b].entries[i].target)
    ensures Earlier(PostorderOf(g), g[b].default, g[b].entries[i].target)
    ensures forall j :: i < j < |g[b].entries| ==>
              Earlier(PostorderOf(g), g[b].entries[j].target, g[b].entries[i].target)
  {
    hide Leads, Earlier, Sdom, Reachable, PostorderOf;
    var es, d := g[b].entries, g[b].default;
    var ts := [d] + ReverseTargets(es);
    var k := |es| - i;
    assert ts[k] == es[i].target && ts == ts[..k] + [ts[k]] + ts[k + 1..];
    forall x | x in ts[..k] ensures !Leads(g, x, ts[k]) {
      var n: nat :| n < k && ts[n] == x;
      assert n > 0 ==> x == es[|es| - n].target;
    }
    assert ts[..k][0] == d;
    WalkOrders(g, b, ts[..k], ts[k], ts[k + 1..], d);
    forall j | i < j < |es| ensures Earlier(PostorderOf(g), es[j].target, es[i].target) {
      assert ts[..k][|es| - j] == es[j].target;
      WalkOrders(g, b, ts[..k], ts[k], ts[k + 1..], es[j].target);
    }
  }

  // ----- The recursive walk over its two arrays -----

  // A list of distinct blocks that misses one has room for it.
  lemma RoomForOne(g: Graph, s: seq<Label>, b: Label)
    requires Distinct(s) && b !in s && b < |g| && forall x :: x in s ==> x < |g|
    ensures |s| < |g|
  {
    DistinctBounded(s + [b], Range(|g|));
  }

  // What visiting bb appends, and what that leaves marked.
  lemma WalkFrom(g: Graph, seen: set<Label>, bb: Label)
    requires WellFormed(g) && bb < |g|
    ensures InRange(g, Targets(g[bb]))
    ensures bb in seen ==> Walk(g, seen, bb) == []
    ensures bb !in seen ==>
              var e := WalkAll(g, seen + {bb}, Targets(g[bb]));
              && Walk(g, seen, bb) == e + [bb] && bb !in e && seen + {bb} + Elems(e) == seen + Elems(Walk(g, seen, bb))
              && Range(|g|) - (seen + {bb}) < Range(|g|) - seen
  {
    hide WellFormed, Walk, WalkAll, Targets, InRange;
    WalkIs(g, seen, bb);
    if bb !in seen {
      WalkAllAppends(g, seen + {bb}, Targets(g[bb]));
      var e := WalkAll(g, seen + {bb}, Targets(g[bb]));
      assert Elems(e + [bb]) == Elems(e) + {bb};
    }
  }

  class PostorderWalk {
    const visited: array<bool>
    const traversal: array<Label>
    var count: nat
    ghost var seen: set<Label>    // the blocks marked in `visited`
    ghost var done: seq<Label>    // the filled part of `traversal`

    ghost predicate Valid(g: Graph)
      reads this, visited, traversal
    {
      && visited.Length == traversal.Length == |g|
      && count <= |g|
      && done == traversal[..count]
      && (forall b: Label :: b in seen <==> b < |g| && visited[b])
      && Distinct(done)
      && (forall b :: b in done ==> b in seen)
    }

    constructor (g: Graph)
      ensures Valid(g) && seen == {} && done == []
      ensures fresh(visited) && fresh(traversal)
    {
      visited := new bool[|g|](_ => false);
      traversal := new Label[|g|](_ => 0);
      count := 0;
      seen := {};
      done := [];
    }

    method Mark(g: Graph, bb: Label)
      requires Valid(g) && bb < |g|
      modifies this, visited
      ensures Valid(g) && seen == old(seen) + {bb} && done == old(done)
    {
      visited[bb] := true;
      seen := seen + {bb};
    }

    method Append(g: Graph, bb: Label)
      requires Valid(g) && bb in seen && bb !in done
      modifies this, traversal
      ensures Valid(g) && seen == old(seen) && done == old(done) + [bb]
    {
      RoomForOne(g, done, bb);
      traversal[count] := bb;
      count := count + 1;
      done := done + [bb];
    }

    // postorder
    method Visit(g: Graph, bb: Label)
      requires WellFormed(g) && Valid(g) && bb < |g|
      modifies this, visited, traversal
      ensures Valid(g)
      ensures done == old(done) + Walk(g, old(seen), bb)
      ensures seen == old(seen) + Elems(Walk(g, old(seen), bb))
      decreases Range(|g|) - seen, 0
    {
      hide WellFormed, Walk, WalkAll, Targets, InRange;
      ghost var s0, d0 := seen, done;
      WalkFrom(g, s0, bb);
      if visited[bb] {
        return;
      }
      Mark(g, bb);
      VisitTargets(g, Targets(g[bb]));
      Append(g, bb);
      assert d0 + WalkAll(g, s0 + {bb}, Targets(g[bb])) + [bb] == d0 + Walk(g, s0, bb);
    }

    method VisitTargets(g: Graph, ts: seq<Label>)
      requires WellFormed(g) && Valid(g) && InRange(g, ts)
      modifies this, visited, traversal
      ensures Valid(g)
      ensures done == old(done) + WalkAll(g, old(seen), ts)
      ensures seen == old(seen) + Elems(WalkAll(g, old(seen), ts))
      decreases Range(|g|) - seen, |ts|
    {
      ghost var s0, d0, all := seen, done, WalkAll(g, seen, ts);
      ghost var e: seq<Label> := [];
      var k: nat := 0;
      WalkedNone(g, s0, ts);
      while k < |ts|
        invariant k <= |ts| && Valid(g)
        invariant Walked(g, s0, ts, k, e)
        invariant done == d0 + e && seen == s0 + Elems(e)
      {
        ghost var w := WalkAllStep(g, s0, ts, k, e);
        Visit(g, ts[k]);
        e := AppendMore(d0, e, w);
        k := k + 1;
      }
      WalkedAll(g, s0, ts, e);
    }
  }

  ghost function AppendMore(d: seq<Label>, e: seq<Label>, w: seq<Label>): (r: seq<Label>)
    ensures r == e + w && d + e + w == d + r
  {
    assert d + e + w == d + (e + w);
    e + w
  }

  // e is what has been appended for the first k targets.
  ghost predicate Walked(g: Graph, seen: set<Label>, ts: seq<Label>, k: nat, e: seq<Label>)
    requires WellFormed(g) && InRange(g, ts) && k <= |ts|
  {
    WalkAll(g, seen, ts) == e + WalkAll(g, seen + Elems(e), ts[k..])
  }

  lemma WalkedNone(g: Graph, seen: set<Label>, ts: seq<Label>)
    requires WellFormed(g) && InRange(g, ts)
    ensures Walked(g, seen, ts, 0, [])
  {
    assert ts[0..] == ts && seen + Elems([]) == seen;
  }

  lemma WalkedAll(g: Graph, seen: set<Label>, ts: seq<Label>, e: seq<Label>)
    requires WellFormed(g) && InRange(g, ts) && Walked(g, seen, ts, |ts|, e)
    ensures WalkAll(g, seen, ts) == e
  {
    assert ts[|ts|..] == [];
  }

  lemma WalkAllStep(g: Graph, seen: set<Label>, ts: seq<Label>, k: nat, e: seq<Label>) returns (w: seq<Label>)
    requires WellFormed(g) && InRange(g, ts) && k < |ts| && Walked(g, seen, ts, k, e)
    ensures w == Walk(g, seen + Elems(e), ts[k])
    ensures Walked(g, seen, ts, k + 1, e + w)
    ensures seen + Elems(e) + Elems(w) == seen + Elems(e + w)
    ensures Range(|g|) - (seen + Elems(e)) <= Range(|g|) - seen
  {
    w := Walk(g, seen + Elems(e), ts[k]);
    var s1 := seen + Elems(e);
    assert ts[k..][1..] == ts[k + 1..];
    assert s1 + Elems(w) == seen + Elems(e + w);
    var rest := WalkAll(g, seen + Elems(e + w), ts[k + 1..]);
    assert e + (w + rest) == (e + w) + rest;
  }

  // tb_function_get_postorder: the traversal of the whole function.
  method GetPostorder(g: Graph) returns (walk: PostorderWalk)
    requires WellFormed(g)
    ensures fresh(walk) && fresh(walk.visited) && fresh(walk.traversal)
    ensures walk.Valid(g) && walk.done == PostorderOf(g)
  {
    hide Walk;
    walk := new PostorderWalk(g);
    walk.Visit(g, 0);
    assert [] + PostorderOf(g) == PostorderOf(g);
  }
}
