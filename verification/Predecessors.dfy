// src/tb/tb_internal.c (tb_calculate_immediate_predeccessors) and the two functions of
// src/tb/tb_analysis.c that call it for every block but the entry.

module Predecessors {
  import opened Finite
  import opened Cfg

  datatype Option<T> = None | Some(value: T) {
    function GetOr(default: T): T {
      match this
      case Some(v) => v
      case None => default
    }
  }

  // How often l occurs in a list of labels.
  ghost function Count(s: seq<Label>, l: Label): (n: nat)
    ensures n > 0 <==> l in s
  {
    if s == [] then 0
    else Count(s[..|s| - 1], l) + (if s[|s| - 1] == l then 1 else 0)
  }

  lemma CountPush(s: seq<Label>, x: Label, l: Label)
    ensures Count(s + [x], l) == Count(s, l) + (if x == l then 1 else 0)
  {
    assert (s + [x])[..|s|] == s;
  }

  lemma {:induction false} CountPrepend(x: Label, s: seq<Label>, l: Label)
    ensures Count([x] + s, l) == Count(s, l) + (if x == l then 1 else 0)
  {
    if s != [] {
      CountPrepend(x, s[..|s| - 1], l);
      assert ([x] + s)[..|s|] == [x] + s[..|s| - 1];
    }
  }

  ghost function CountEntries(es: seq<SwitchEntry>, l: Label): nat
  {
    if es == [] then 0
    else CountEntries(es[..|es| - 1], l) + (if es[|es| - 1].target == l then 1 else 0)
  }

  lemma {:induction false} CountReverseTargets(es: seq<SwitchEntry>, l: Label)
    ensures Count(ReverseTargets(es), l) == CountEntries(es, l)
  {
    if es != [] {
      CountReverseTargets(es[..|es| - 1], l);
      CountPrepend(es[|es| - 1].target, ReverseTargets(es[..|es| - 1]), l);
    }
  }

  method CountSwitchEntries(entries: seq<SwitchEntry>, l: Label) returns (n: nat)
    ensures n == CountEntries(entries, l)
  {
    n := 0;
    var i := 0;
    while i < |entries|
      invariant i <= |entries| && n == CountEntries(entries[..i], l)
    {
      assert entries[..i + 1][..i] == entries[..i];
      if l == entries[i].target { n := n + 1; }
      i := i + 1;
    }
    assert entries[..i] == entries;
  }

  // Lists of one and of two labels.
  lemma CountFew(a: Label, b: Label, l: Label)
    ensures Count([], l) == 0 && Count([a], l) == if a == l then 1 else 0
    ensures Count([b, a], l) == (if a == l then 1 else 0) + (if b == l then 1 else 0)
  {
    hide Count;
    assert Count([], l) == 0;
    CountPrepend(a, [], l);
    CountPrepend(b, [a], l);
    assert [a] + [] == [a] && [b] + [a] == [b, a];
  }

  lemma CountTargets(t: Terminator, l: Label)
    ensures t.Goto? ==> Count(Targets(t), l) == if t.target == l then 1 else 0
    ensures t.If? ==>
              Count(Targets(t), l) == (if t.ifTrue == l then 1 else 0) + (if t.ifFalse == l then 1 else 0)
    ensures t.Switch? ==>
              Count(Targets(t), l) == CountEntries(t.entries, l) + (if t.default == l then 1 else 0)
    ensures !t.Goto? && !t.If? && !t.Switch? ==> Count(Targets(t), l) == 0
  {
    hide Count;
    CountFew(0, 0, l);
    match t
    case Goto(a) => CountFew(a, a, l);
    case If(_, a, b) => CountFew(a, b, l);
    case Switch(_, es, d) =>
      CountReverseTargets(es, l);
      CountPrepend(d, ReverseTargets(es), l);
    case _ =>
  }

  // The number of mentions of l in a terminator, counted as the source does.
  method CountMentions(t: Terminator, l: Label) returns (n: nat)
    ensures n == Count(Targets(t), l)
  {
    hide Count, Targets;
    CountTargets(t, l);
    n := 0;
    match t
    case If(_, ifTrue, ifFalse) =>
      if l == ifTrue { n := n + 1; }
      if l == ifFalse { n := n + 1; }
    case Goto(target) =>
      if l == target { n := n + 1; }
    case Switch(_, entries, default) =>
      n := CountSwitchEntries(entries, l);
      if l == default { n := n + 1; }
    case _ =>
  }

  // Adds a block to a list once for every mention.
  method Repeat(preds: seq<Label>, bb: Label, n: nat) returns (r: seq<Label>)
    ensures r == preds + Copies(bb, n)
  {
    r := preds;
    var i := 0;
    while i < n
      invariant i <= n && r == preds + Copies(bb, i)
    {
      r := r + [bb];
      i := i + 1;
    }
  }

  ghost predicate Ascending(s: seq<Label>)
  {
    forall i, j :: 0 <= i < j < |s| ==> s[i] <= s[j]
  }

  // ps lists the blocks below n that name l, in block order, once for each mention.
  ghost predicate PredList(g: Graph, l: Label, n: nat, ps: seq<Label>)
    requires n <= |g|
  {
    && Ascending(ps)
    && (forall i :: 0 <= i < |ps| ==> ps[i] < n)
    && forall a: Label :: a < n ==> Count(ps, a) == Count(Targets(g[a]), l)
  }

  // The list that PredList describes: a block below n once for each mention of l, in block order.
  ghost function PredsOf(g: Graph, l: Label, n: nat): (ps: seq<Label>)
    requires n <= |g|
  {
    if n == 0 then [] else PredsOf(g, l, n - 1) + Copies(n - 1, Count(Targets(g[n - 1]), l))
  }

  lemma {:induction false} PredsAreListed(g: Graph, l: Label, n: nat)
    requires n <= |g|
    ensures PredList(g, l, n, PredsOf(g, l, n))
  {
    hide PredList, Count, Targets, Copies;
    if n == 0 {
      NoBlocks(g, l);
    } else {
      PredsAreListed(g, l, n - 1);
      OneBlockMore(g, l, n - 1, PredsOf(g, l, n - 1), Count(Targets(g[n - 1]), l));
    }
  }

  lemma NoBlocks(g: Graph, l: Label)
    ensures PredList(g, l, 0, [])
  {
  }

  ghost function Copies(x: Label, n: nat): (s: seq<Label>)
    ensures |s| == n && forall i :: 0 <= i < n ==> s[i] == x
  {
    seq(n, _ => x)
  }

  lemma {:induction false} CountCopies(s: seq<Label>, x: Label, n: nat, l: Label)
    ensures Count(s + Copies(x, n), l) == Count(s, l) + (if x == l then n else 0)
  {
    if n == 0 {
      assert s + Copies(x, 0) == s;
    } else {
      CountCopies(s, x, n - 1, l);
      assert s + Copies(x, n) == (s + Copies(x, n - 1)) + [x];
      CountPush(s + Copies(x, n - 1), x, l);
    }
  }

  lemma OneBlockMore(g: Graph, l: Label, n: nat, ps: seq<Label>, m: nat)
    requires n < |g| && PredList(g, l, n, ps) && m == Count(Targets(g[n]), l)
    ensures PredList(g, l, n + 1, ps + Copies(n, m))
  {
    forall a: Label | a < n + 1 ensures Count(ps + Copies(n, m), a) == Count(Targets(g[a]), l) {
      CountCopies(ps, n, m, a);
    }
  }

  lemma PredsStart(g: Graph, l: Label)
    ensures PredsOf(g, l, 0) == []
  {
  }

  lemma PredsStep(g: Graph, l: Label, n: nat)
    requires n < |g|
    ensures PredsOf(g, l, n + 1) == PredsOf(g, l, n) + Copies(n, Count(Targets(g[n]), l))
  {
  }

  // More entries than there are blocks, for which the source's assert leaves no room.
  ghost predicate TooMany(g: Graph, l: Label)
  {
    |PredsOf(g, l, |g|)| > |g|
  }

  // tb_calculate_immediate_predeccessors. A block that ends in TRAP is a node type that the
  // source's switch does not list.
  method CalculateImmediatePredecessors(g: Graph, l: Label) returns (r: Option<seq<Label>>)
    ensures r.None? <==> Trap in g || TooMany(g, l)
    ensures r.Some? ==> r.value == PredsOf(g, l, |g|)
  {
    hide PredsOf, PredList, Count, Copies, Targets, ReverseTargets;
    var preds: seq<Label> := [];
    var bb: nat := 0;
    PredsStart(g, l);
    while bb < |g|
      invariant bb <= |g| && forall a :: 0 <= a < bb ==> g[a] != Trap
      invariant preds == PredsOf(g, l, bb)
    {
      if g[bb] == Trap {
        return None;
      }
      var n := CountMentions(g[bb], l);
      PredsStep(g, l, bb);
      preds := Repeat(preds, bb, n);
      bb := bb + 1;
    }
    if |preds| > |g| {
      return None;
    }
    return Some(preds);
  }

  // Row b of a table of predecessors holds exactly the blocks with an edge to b.
  ghost predicate PredRow(g: Graph, b: Label, ps: seq<Label>)
  {
    forall a: Label :: a in ps <==> Edge(g, a, b)
  }

  lemma PredListIsRow(g: Graph, b: Label, ps: seq<Label>)
    requires b < |g| && PredList(g, b, |g|, ps)
    ensures PredRow(g, b, ps)
  {
    forall a: Label ensures a in ps <==> Edge(g, a, b) {
      assert a in ps <==> Count(ps, a) > 0;
      if a < |g| {
        assert b in Targets(g[a]) <==> Count(Targets(g[a]), b) > 0;
      }
    }
  }

  // What the analyses need to know about a table of predecessors.
  ghost predicate IsPredTable(g: Graph, preds: seq<seq<Label>>)
  {
    && |preds| == |g| > 0
    && preds[0] == []
    && forall b: Label :: 0 < b < |g| ==> PredRow(g, b, preds[b])
  }

  // The table of the predecessors of all blocks but the entry.
  ghost function PredTable(g: Graph): (preds: seq<seq<Label>>)
    requires |g| > 0
    ensures IsPredTable(g, preds) && forall b: Label :: 0 < b < |g| ==> PredList(g, b, |g|, preds[b])
  {
    var preds := seq(|g|, b requires 0 <= b < |g| => if b == 0 then [] else PredsOf(g, b, |g|));
    RowsFit(g, preds);
    preds
  }

  lemma RowsFit(g: Graph, preds: seq<seq<Label>>)
    requires |preds| == |g| > 0 && preds[0] == []
    requires forall b: Label :: 0 < b < |g| ==> preds[b] == PredsOf(g, b, |g|)
    ensures IsPredTable(g, preds) && forall b: Label :: 0 < b < |g| ==> PredList(g, b, |g|, preds[b])
  {
    hide PredList, PredRow;
    forall b: Label | 0 < b < |g| ensures PredRow(g, b, preds[b]) && PredList(g, b, |g|, preds[b]) {
      PredsAreListed(g, b, |g|);
      PredListIsRow(g, b, preds[b]);
    }
  }

  lemma TableIs(g: Graph, preds: seq<seq<Label>>)
    requires |preds| == |g| > 0 && preds[0] == []
    requires forall b: Label :: 0 < b < |g| ==> preds[b] == PredsOf(g, b, |g|)
    ensures preds == PredTable(g)
  {
    hide IsPredTable, PredList;
    assert preds == PredTable(g);
  }

  // Graphs on which the table runs into a tb_todo() or an assert.
  ghost predicate NoTable(g: Graph)
  {
    (Trap in g && |g| > 1) || exists l: Label :: 0 < l < |g| && TooMany(g, l)
  }

  // tb_get_predeccesors: the entry is given no predecessors, whatever jumps to it.
  method GetPredecessors(g: Graph) returns (r: Option<seq<seq<Label>>>)
    requires |g| > 0
    ensures r.None? <==> NoTable(g)
    ensures r.Some? ==> r.value == PredTable(g)
  {
    hide PredList, PredRow, IsPredTable, TooMany, PredTable, PredsOf;
    var preds: seq<seq<Label>> := [[]];
    var j: nat := 1;
    while j < |g|
      invariant 1 <= j <= |g| && |preds| == j && preds[0] == []
      invariant (j > 1 ==> Trap !in g) && forall b: Label :: 0 < b < j ==> !TooMany(g, b)
      invariant forall b: Label :: 0 < b < j ==> preds[b] == PredsOf(g, b, |g|)
    {
      var p := CalculateImmediatePredecessors(g, j);
      if p.None? {
        return None;
      }
      preds := preds + [p.value];
      j := j + 1;
    }
    TableIs(g, preds);
    return Some(preds);
  }

  // Only a switch can name a block often enough for that: where no terminator names a block twice
  // there are no more predecessors than blocks.
  lemma {:induction false} NamedOnce(g: Graph, l: Label, n: nat)
    requires n <= |g| && forall a :: 0 <= a < |g| ==> Count(Targets(g[a]), l) <= 1
    ensures |PredsOf(g, l, n)| <= n
  {
    if n > 0 { NamedOnce(g, l, n - 1); }
  }

  ghost predicate NamesOnce(g: Graph)
  {
    forall a :: 0 <= a < |g| ==> g[a] != Trap && Distinct(Targets(g[a]))
  }

  lemma {:induction false} DistinctCount(s: seq<Label>, l: Label)
    requires Distinct(s)
    ensures Count(s, l) <= 1
  {
    if s != [] {
      DistinctCount(s[..|s| - 1], l);
      if s[|s| - 1] == l { assert l !in s[..|s| - 1]; }
    }
  }

  lemma NamesOnceTable(g: Graph)
    requires NamesOnce(g)
    ensures !NoTable(g)
  {
    hide Count, Targets, PredsOf;
    forall l: Label ensures !TooMany(g, l) {
      forall a | 0 <= a < |g| ensures Count(Targets(g[a]), l) <= 1 { DistinctCount(Targets(g[a]), l); }
      NamedOnce(g, l, |g|);
    }
  }

  // Clearing terminators only takes predecessors away.
  lemma {:induction false} FewerPreds(g: Graph, h: Graph, l: Label, n: nat)
    requires n <= |g| == |h| && forall a :: 0 <= a < |g| ==> h[a] == g[a] || Targets(h[a]) == []
    ensures |PredsOf(h, l, n)| <= |PredsOf(g, l, n)|
  {
    hide PredsOf, Count, Targets;
    PredsStart(g, l);
    PredsStart(h, l);
    if n > 0 {
      FewerPreds(g, h, l, n - 1);
      PredsStep(g, l, n - 1);
      PredsStep(h, l, n - 1);
      CountFew(l, l, l);
    }
  }

  // 0: switch x { 0: goto 1; 1: goto 1 } else goto 1    1: return
  function Crowded(): Graph
  {
    [Switch(1, [SwitchEntry(0, 1), SwitchEntry(1, 1)], 1), Return(0)]
  }

  // Three entries in the list of block 1, with two blocks.
  lemma CrowdedFails()
    ensures WellFormed(Crowded()) && NoTable(Crowded())
  {
    var g := Crowded();
    assert Targets(g[0]) == [1, 1, 1] && Targets(g[1]) == [];
    assert Count([1], 1) == 1 && [1, 1][..1] == [1] && Count([1, 1], 1) == 2 && [1, 1, 1][..2] == [1, 1];
    assert |PredsOf(g, 1, 1)| == |PredsOf(g, 1, 0)| + 3;
    assert TooMany(g, 1);
  }

  // A predecessor listed once is the only way in.
  lemma SinglePred(g: Graph, preds: seq<seq<Label>>, a: Label, b: Label)
    requires IsPredTable(g, preds) && 0 < b < |g| && |preds[b]| < 2 && Edge(g, a, b)
    ensures preds[b] == [a]
  {
    assert a in preds[b];
  }

  // The first predecessor of a block is the lowest.
  lemma FirstIsLowest(g: Graph, b: Label, a: Label)
    requires 0 < b < |g| && Edge(g, a, b) && forall c: Label :: Edge(g, c, b) ==> a <= c
    ensures PredTable(g)[b] != [] && PredTable(g)[b][0] == a
  {
    hide PredTable, Edge;
    var ps := PredTable(g)[b];
    assert PredRow(g, b, ps) && PredList(g, b, |g|, ps);
    var i :| 0 <= i < |ps| && ps[i] == a;
    assert ps[0] in ps;
  }
}
