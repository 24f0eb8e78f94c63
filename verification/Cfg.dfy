// The control-flow graph of a function: one terminator per basic block, the edges
// it gives rise to, and dominance defined by paths.

module Cfg {

  type Label = nat
  type Reg = nat

  datatype SwitchEntry = SwitchEntry(key: int, target: Label)

  // The node a block ends in. `NoEnd` is a block whose `end` is 0.
  datatype Terminator =
    | NoEnd
    | Return(value: Reg)
    | Unreachable
    | Trap
    | Goto(target: Label)
    | If(cond: Reg, ifTrue: Label, ifFalse: Label)
    | Switch(switchKey: Reg, entries: seq<SwitchEntry>, default: Label)

  type Graph = seq<Terminator>

  // The labels a terminator can transfer control to, in the order in which the
  // postorder walk visits them.
  function Targets(t: Terminator): (ts: seq<Label>)
  {
    match t
    case NoEnd => []
    case Return(_) => []
    case Unreachable => []
    case Trap => []
    case Goto(l) => [l]
    case If(_, t, f) => [f, t]
    case Switch(_, es, d) => [d] + ReverseTargets(es)
  }

  function ReverseTargets(es: seq<SwitchEntry>): (ts: seq<Label>)
    ensures |ts| == |es|
    ensures forall i :: 0 <= i < |es| ==> ts[i] == es[|es| - 1 - i].target
  {
    if es == [] then [] else [es[|es| - 1].target] + ReverseTargets(es[..|es| - 1])
  }

  ghost predicate WellFormed(g: Graph)
  {
    |g| > 0 && forall b, l :: 0 <= b < |g| && l in Targets(g[b]) ==> l < |g|
  }

  predicate Edge(g: Graph, a: Label, b: Label)
  {
    a < |g| && b < |g| && b in Targets(g[a])
  }

  // ----- Paths -----

  ghost predicate IsPath(g: Graph, p: seq<Label>)
  {
    && |p| > 0
    && (forall i :: 0 <= i < |p| ==> p[i] < |g|)
    && (forall i :: 0 <= i < |p| - 1 ==> Edge(g, p[i], p[i + 1]))
  }

  ghost predicate PathTo(g: Graph, p: seq<Label>, b: Label)
  {
    IsPath(g, p) && p[0] == 0 && p[|p| - 1] == b
  }

  ghost predicate Reachable(g: Graph, b: Label)
  {
    exists p :: PathTo(g, p, b)
  }

  // ----- Dominance: every path from the entry passes through the block -----

  ghost predicate Dom(g: Graph, x: Label, b: Label)
  {
    forall p :: PathTo(g, p, b) ==> x in p
  }

  ghost predicate Sdom(g: Graph, x: Label, b: Label)
  {
    x != b && Dom(g, x, b)
  }

  // d is the closest strict dominator of b.
  ghost predicate IsIdom(g: Graph, d: Label, b: Label)
  {
    Sdom(g, d, b) && forall x :: Sdom(g, x, b) ==> Dom(g, x, d)
  }

  // ----- Paths: construction and surgery -----

  lemma EntryReachable(g: Graph)
    requires |g| > 0
    ensures Reachable(g, 0)
  {
    assert PathTo(g, [0], 0);
  }

  lemma ExtendPath(g: Graph, p: seq<Label>, a: Label, b: Label)
    requires PathTo(g, p, a) && Edge(g, a, b)
    ensures PathTo(g, p + [b], b)
  {
  }

  lemma StepReachable(g: Graph, a: Label, b: Label)
    requires Reachable(g, a) && Edge(g, a, b)
    ensures Reachable(g, b)
  {
    var p :| PathTo(g, p, a);
    ExtendPath(g, p, a, b);
  }

  lemma PrefixPath(g: Graph, p: seq<Label>, b: Label, i: nat)
    requires PathTo(g, p, b) && i < |p|
    ensures PathTo(g, p[..i + 1], p[i])
  {
  }

  // Two paths that share an end are one path.
  lemma JoinIsPath(g: Graph, p: seq<Label>, q: seq<Label>)
    requires IsPath(g, p) && IsPath(g, q) && q[0] == p[|p| - 1]
    ensures IsPath(g, p + q[1..]) && (p + q[1..])[0] == p[0]
    ensures (p + q[1..])[|p + q[1..]| - 1] == q[|q| - 1]
  {
    hide Targets;
    var r := p + q[1..];
    forall i | 0 <= i < |q| ensures r[|p| - 1 + i] == q[i] {
    }
    forall i | 0 <= i < |p| - 1 ensures Edge(g, r[i], r[i + 1]) {
      assert Edge(g, p[i], p[i + 1]);
    }
    forall i | |p| - 1 <= i < |r| - 1 ensures Edge(g, r[i], r[i + 1]) {
      var k := i - (|p| - 1);
      assert Edge(g, q[k], q[k + 1]) && r[i] == q[k] && r[i + 1] == q[k + 1];
    }
  }

  lemma JoinPaths(g: Graph, p: seq<Label>, q: seq<Label>, a: Label)
    requires PathTo(g, p, a) && IsPath(g, q) && q[0] == a
    ensures PathTo(g, p + q[1..], q[|q| - 1])
  {
    JoinIsPath(g, p, q);
  }

  // A reachable block other than the entry is entered from a reachable block.
  lemma HasReachablePred(g: Graph, b: Label) returns (a: Label)
    requires Reachable(g, b) && b != 0
    ensures Reachable(g, a) && Edge(g, a, b)
  {
    var p :| PathTo(g, p, b);
    a := p[|p| - 2];
    PrefixPath(g, p, b, |p| - 2);
  }

  // ----- Dominance: the order it forms on reachable blocks -----

  lemma DomReachable(g: Graph, x: Label, b: Label)
    requires Dom(g, x, b) && Reachable(g, b)
    ensures x < |g| && Reachable(g, x)
  {
    var p :| PathTo(g, p, b);
    var i :| 0 <= i < |p| && p[i] == x;
    PrefixPath(g, p, b, i);
  }

  lemma EntryDominates(g: Graph, b: Label)
    ensures Dom(g, 0, b)
  {
  }

  lemma DomEntry(g: Graph, x: Label)
    requires |g| > 0 && Dom(g, x, 0)
    ensures x == 0
  {
    assert PathTo(g, [0], 0);
  }

  lemma DomTrans(g: Graph, x: Label, y: Label, b: Label)
    requires Dom(g, x, y) && Dom(g, y, b)
    ensures Dom(g, x, b)
  {
    forall p | PathTo(g, p, b) ensures x in p {
      var i :| 0 <= i < |p| && p[i] == y;
      PrefixPath(g, p, b, i);
      assert x in p[..i + 1];
    }
  }

  // A path to x cut at its first arrival at y: it reaches y without meeting x earlier.
  lemma {:induction false} FirstOf(p: seq<Label>, x: Label, y: Label) returns (i: nat)
    requires x in p || y in p
    ensures i < |p| && (p[i] == x || p[i] == y) && x !in p[..i] && y !in p[..i]
  {
    i := 0;
    while p[i] != x && p[i] != y
      invariant i < |p| && x !in p[..i] && y !in p[..i]
      invariant x in p[i..] || y in p[i..]
      decreases |p| - i
    {
      i := i + 1;
    }
  }

  lemma DomAntisym(g: Graph, x: Label, y: Label)
    requires Dom(g, x, y) && Dom(g, y, x) && Reachable(g, y)
    ensures x == y
  {
    var p :| PathTo(g, p, y);
    var i := FirstOf(p, x, y);
    PrefixPath(g, p, y, i);
    assert p[..i + 1] == p[..i] + [p[i]];
  }

  // A strict dominator of b dominates every reachable predecessor of b.
  lemma SdomPred(g: Graph, x: Label, a: Label, b: Label)
    requires Sdom(g, x, b) && Edge(g, a, b)
    ensures Dom(g, x, a)
  {
    forall p | PathTo(g, p, a) ensures x in p {
      ExtendPath(g, p, a, b);
      assert x in p + [b];
    }
  }

  // Conversely, what dominates every reachable predecessor dominates the block.
  lemma DomOfPreds(g: Graph, x: Label, b: Label)
    requires b != 0
    requires forall a :: Edge(g, a, b) && Reachable(g, a) ==> Dom(g, x, a)
    ensures Dom(g, x, b)
  {
    forall p | PathTo(g, p, b) ensures x in p {
      PrefixPath(g, p, b, |p| - 2);
      assert Edge(g, p[|p| - 2], b) && Reachable(g, p[|p| - 2]);
      assert x in p[..|p| - 1];
    }
  }

  // There is only one closest strict dominator.
  lemma IdomUnique(g: Graph, d: Label, e: Label, b: Label)
    requires IsIdom(g, d, b) && IsIdom(g, e, b) && Reachable(g, b)
    ensures d == e
  {
    DomReachable(g, d, b);
    DomAntisym(g, e, d);
  }
}
