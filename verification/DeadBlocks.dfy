// src/tb/opt/dead_code_elim.c:143-174: blocks without predecessors are cleared until none is
// left.

module DeadBlocks {
  import opened Finite
  import opened Cfg
  import opened Predecessors
  import opened Ir

  const CLEARED := Block([], NoEnd)

  // Every block of S but the entry is entered from a block of S.
  ghost predicate Supported(g: Graph, S: set<Label>)
  {
    forall b: Label :: b in S && b != 0 ==> EnteredFrom(g, S, b)
  }

  ghost predicate EnteredFrom(g: Graph, S: set<Label>, b: Label)
  {
    exists a: Label :: a in S && Edge(g, a, b)
  }

  // b is in the greatest such set.
  ghost predicate Kept(g: Graph, b: Label)
  {
    exists S: set<Label> :: Supported(g, S) && b in S
  }

  // ----- The state of the sweeps -----

  // Blocks are as they were or cleared; no supported block is cleared.
  ghost predicate Clearing(f: Function, h: Function)
  {
    && h.nodes == f.nodes && |h.blocks| == |f.blocks|
    && (forall b: Label :: b < |f.blocks| ==> h.blocks[b] == f.blocks[b] || h.blocks[b] == CLEARED)
    && (forall b: Label :: b < |f.blocks| && Stays(f, b) ==> h.blocks[b] == f.blocks[b])
  }

  ghost predicate Stays(f: Function, b: Label)
    requires b < |f.blocks|
  {
    b == 0 || Kept(GraphOf(f), b) || f.blocks[b].end.NoEnd?
  }

  lemma KeptHasPred(f: Function, h: Function, b: Label)
    requires Clearing(f, h) && 0 < b < |f.blocks| && Kept(GraphOf(f), b)
    ensures exists a: Label :: Edge(GraphOf(h), a, b)
  {
    var S: set<Label> :| Supported(GraphOf(f), S) && b in S;
    assert EnteredFrom(GraphOf(f), S, b);
    var a: Label :| a in S && Edge(GraphOf(f), a, b);
    assert Kept(GraphOf(f), a) && Stays(f, a);
    assert h.blocks[a] == f.blocks[a];
    assert Edge(GraphOf(h), a, b);
  }

  // Blocks with a terminator.
  function Ended(blocks: seq<Block>): nat
  {
    if blocks == [] then 0
    else Ended(blocks[..|blocks| - 1]) + if blocks[|blocks| - 1].end.NoEnd? then 0 else 1
  }

  lemma {:induction false} ClearLess(blocks: seq<Block>, b: Label)
    requires b < |blocks| && !blocks[b].end.NoEnd?
    ensures Ended(blocks[b := CLEARED]) < Ended(blocks)
  {
    if b < |blocks| - 1 {
      ClearLess(blocks[..|blocks| - 1], b);
      assert blocks[b := CLEARED][..|blocks| - 1] == blocks[..|blocks| - 1][b := CLEARED];
    } else {
      assert blocks[b := CLEARED][..|blocks| - 1] == blocks[..|blocks| - 1];
    }
  }

  // mark_to_kill
  ghost predicate Marked(h: Function, preds: seq<seq<Label>>, b: Label)
  {
    0 < b < |h.blocks| && b < |preds| && !h.blocks[b].end.NoEnd? && preds[b] == []
  }

  method Mark(h: Function, preds: seq<seq<Label>>) returns (kill: seq<Label>)
    requires |preds| == |h.blocks|
    ensures Distinct(kill) && forall b: Label :: b in kill <==> Marked(h, preds, b)
  {
    kill := [];
    var bb: nat := 0;
    while bb < |h.blocks|
      invariant bb <= |h.blocks| && Distinct(kill) && forall i :: 0 <= i < |kill| ==> kill[i] < bb
      invariant forall b: Label :: b in kill <==> b < bb && Marked(h, preds, b)
    {
      if bb > 0 && !h.blocks[bb].end.NoEnd? && |preds[bb]| == 0 {
        kill := kill + [bb];
      }
      bb := bb + 1;
    }
  }

  method Clear(blocks0: seq<Block>, kill: seq<Label>) returns (blocks: seq<Block>)
    requires Distinct(kill) && forall i :: 0 <= i < |kill| ==> kill[i] < |blocks0| && !blocks0[kill[i]].end.NoEnd?
    ensures |blocks| == |blocks0|
    ensures forall b: Label :: b < |blocks| ==> blocks[b] == if b in kill then CLEARED else blocks0[b]
    ensures |kill| > 0 ==> Ended(blocks) < Ended(blocks0)
    ensures |kill| == 0 ==> blocks == blocks0
  {
    blocks := blocks0;
    var i: nat := 0;
    while i < |kill|
      invariant i <= |kill| && |blocks| == |blocks0|
      invariant forall b: Label :: b < |blocks| ==> blocks[b] == if b in kill[..i] then CLEARED else blocks0[b]
      invariant i == 0 ==> blocks == blocks0
      invariant i > 0 ==> Ended(blocks) < Ended(blocks0)
    {
      assert kill[i] !in kill[..i];
      assert kill[..i + 1] == kill[..i] + [kill[i]];
      ClearLess(blocks, kill[i]);
      blocks := blocks[kill[i] := CLEARED];
      i := i + 1;
    }
    assert kill[..i] == kill;
  }

  lemma MarkedNotKept(f: Function, h: Function, preds: seq<seq<Label>>, b: Label)
    requires Clearing(f, h) && IsPredTable(GraphOf(h), preds) && Marked(h, preds, b)
    ensures !Stays(f, b)
  {
    assert PredRow(GraphOf(h), b, preds[b]);
    assert forall a: Label :: Edge(GraphOf(h), a, b) ==> a in preds[b];
    if Kept(GraphOf(f), b) { KeptHasPred(f, h, b); }
  }

  lemma ClearStep(f: Function, h: Function, preds: seq<seq<Label>>, kill: seq<Label>, blocks: seq<Block>)
    requires Clearing(f, h) && IsPredTable(GraphOf(h), preds) && |blocks| == |h.blocks|
    requires forall b: Label :: b in kill <==> Marked(h, preds, b)
    requires forall b: Label :: b < |blocks| ==> blocks[b] == if b in kill then CLEARED else h.blocks[b]
    ensures Clearing(f, h.(blocks := blocks))
  {
    forall b: Label | b < |f.blocks| && Stays(f, b) ensures blocks[b] == f.blocks[b] {
      if b in kill { MarkedNotKept(f, h, preds, b); }
    }
  }

  // The table that could be had before can be had after.
  lemma ClearTable(h: Function, blocks: seq<Block>, kill: seq<Label>)
    requires !NoTable(GraphOf(h)) && |blocks| == |h.blocks|
    requires forall b: Label :: b < |blocks| ==> blocks[b] == if b in kill then CLEARED else h.blocks[b]
    ensures !NoTable(GraphOf(h.(blocks := blocks)))
  {
    var g, g1 := GraphOf(h), GraphOf(h.(blocks := blocks));
    forall b: Label | b < |g| ensures g1[b] == g[b] || (g1[b] == NoEnd && Targets(g1[b]) == []) {
      if b !in kill { assert blocks[b] == h.blocks[b]; }
    }
    forall l: Label | 0 < l < |g1| ensures !TooMany(g1, l) {
      assert !TooMany(g, l);
      FewerPreds(g, g1, l, |g|);
    }
  }

  // With nothing to mark, what is left is supported.
  lemma LeftIsKept(f: Function, h: Function, preds: seq<seq<Label>>)
    requires Clearing(f, h) && IsPredTable(GraphOf(h), preds) && forall b: Label :: !Marked(h, preds, b)
    ensures forall b: Label :: b < |f.blocks| ==> h.blocks[b] == if Stays(f, b) then f.blocks[b] else CLEARED
  {
    var S := set b: Label | b in Range(|f.blocks|) && (b == 0 || !h.blocks[b].end.NoEnd?);
    hide EnteredFrom, Marked, Clearing, IsPredTable;
    assert |h.blocks| == |f.blocks| by { ClearingBlock(f, h); }
    forall b: Label | b in S && b != 0 ensures EnteredFrom(GraphOf(f), S, b) {
      LeftEntered(f, h, preds, S, b);
    }
    assert Supported(GraphOf(f), S);
    hide Supported;
    ClearingBlock(f, h);
  }

  lemma ClearingBlock(f: Function, h: Function)
    requires Clearing(f, h)
    ensures |h.blocks| == |f.blocks| && forall b: Label :: b < |f.blocks| ==>
              (h.blocks[b] == f.blocks[b] || h.blocks[b] == CLEARED) && (Stays(f, b) ==> h.blocks[b] == f.blocks[b])
  {
  }

  lemma LeftEntered(f: Function, h: Function, preds: seq<seq<Label>>, S: set<Label>, b: Label)
    requires Clearing(f, h) && IsPredTable(GraphOf(h), preds) && !Marked(h, preds, b)
    requires 0 < b < |f.blocks| && !h.blocks[b].end.NoEnd?
    requires forall x: Label :: x in S <==> x < |f.blocks| && (x == 0 || !h.blocks[x].end.NoEnd?)
    ensures EnteredFrom(GraphOf(f), S, b)
  {
    hide Stays;
    var a := preds[b][0];
    assert PredRow(GraphOf(h), b, preds[b]);
    assert a in preds[b] && Edge(GraphOf(h), a, b);
    assert Edge(GraphOf(f), a, b) && a in S;
  }

  // dead_block_elim. What stays is exactly the entry, the blocks of the greatest supported set
  // and blocks that never had a terminator.
  method DeadBlockElim(f: Function) returns (r: Option<Function>)
    requires |f.blocks| > 0
    ensures r.None? <==> NoTable(GraphOf(f))
    ensures r.Some? ==> Clearing(f, r.value)
    ensures r.Some? ==> forall b: Label :: b < |f.blocks| ==>
              r.value.blocks[b] == if Stays(f, b) then f.blocks[b] else CLEARED
  {
    var h := f;
    var localChanges := true;
    ghost var first := true;
    ghost var preds: seq<seq<Label>> := [];
    hide Kept, Supported, PredRow, Stays, Marked, NoTable;
    while localChanges
      invariant Clearing(f, h)
      invariant first ==> h == f && localChanges
      invariant !first ==> !NoTable(GraphOf(f)) && !NoTable(GraphOf(h))
      invariant !localChanges ==> IsPredTable(GraphOf(h), preds) && forall b: Label :: !Marked(h, preds, b)
      decreases first, Ended(h.blocks), localChanges
    {
      var ps := GetPredecessors(GraphOf(h));
      if ps.None? {
        return None;
      }
      preds := ps.value;
      var kill := Mark(h, ps.value);
      MarkFits(h, ps.value, kill);
      var blocks := Clear(h.blocks, kill);
      ClearStep(f, h, ps.value, kill, blocks);
      ClearTable(h, blocks, kill);
      localChanges := |kill| > 0;
      if |kill| > 0 { assert kill[0] in kill; }
      h := h.(blocks := blocks);
      first := false;
    }
    LeftIsKept(f, h, preds);
    return Some(h);
  }

  lemma MarkFits(h: Function, preds: seq<seq<Label>>, kill: seq<Label>)
    requires forall b: Label :: b in kill <==> Marked(h, preds, b)
    ensures forall i :: 0 <= i < |kill| ==> kill[i] < |h.blocks| && !h.blocks[kill[i]].end.NoEnd?
    ensures |kill| == 0 ==> forall b: Label :: !Marked(h, preds, b)
  {
    forall i | 0 <= i < |kill| ensures kill[i] < |h.blocks| && !h.blocks[kill[i]].end.NoEnd? {
      assert kill[i] in kill;
    }
  }

  // ----- What is reachable is kept -----

  lemma ReachableStays(f: Function, b: Label)
    requires b < |f.blocks| && Reachable(GraphOf(f), b)
    ensures Kept(GraphOf(f), b)
  {
    var g := GraphOf(f);
    var S := set c: Label | c in Range(|g|) && Reachable(g, c);
    forall c: Label | c in S && c != 0 ensures EnteredFrom(g, S, c) {
      var a := HasReachablePred(g, c);
      assert a in S && Edge(g, a, c);
    }
    assert Supported(g, S);
  }

  // The theorem: clearing leaves every run as it was.
  lemma {:induction false} ClearingPreservesRuns<V, W>(sem: Sem<V, W>, f: Function, h: Function, w: W, n: nat)
    requires Shape(f) && Shape(h) && Clearing(f, h)
    ensures Run(sem, {}, h, w, n) == Run(sem, {}, f, w, n)
  {
    hide Shape, Clearing, Step;
    if n == 0 {
      SameSize(f, h);
    } else {
      ClearingPreservesRuns(sem, f, h, w, n - 1);
      TraceIsPath(sem, {}, f, w, n - 1);
      var c := Run(sem, {}, f, w, n - 1);
      if c.At? {
        assert Reachable(GraphOf(f), c.block);
        StepCleared(sem, f, h, c);
      } else {
        StepHalted(sem, {}, f, c);
        StepHalted(sem, {}, h, c);
      }
    }
  }

  lemma SameSize(f: Function, h: Function)
    requires Clearing(f, h)
    ensures |h.blocks| == |f.blocks|
  {
  }

  lemma StepCleared<V, W>(sem: Sem<V, W>, f: Function, h: Function, c: Config<V, W>)
    requires Shape(f) && Shape(h) && Clearing(f, h) && c.At? && Reachable(GraphOf(f), c.block)
    ensures Step(sem, {}, h, c) == Step(sem, {}, f, c)
  {
    if c.block < |f.blocks| {
      ReachableStays(f, c.block);
      var body := f.blocks[c.block].body;
      assert Stays(f, c.block);
      assert PhiMoves(sem, h, body, c.from, c.st) == PhiMoves(sem, f, body, c.from, c.st);
      SameBody(sem, f, h, body, |body|, EnterBlock(sem, f, body, c.from, c.st));
    }
  }
}
