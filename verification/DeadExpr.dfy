// src/tb/opt/dead_code_elim.c:3-141 and src/tb/tb_internal.c:4-18: use counts, and the removal
// of nodes whose count is zero.

module DeadExpr {
  import opened Finite
  import opened Cfg
  import opened Predecessors
  import opened Ir
  import opened Ssa
  import opened Coherency
  import opened Replacing
  import opened Removal
  import Merging

  // What dead_expr_elim asks of a function: operands are registers, register 0 is null.
  ghost predicate Counted(f: Function)
  {
    && Shape(f) && |f.nodes| > 0 && f.nodes[0] == Null
    && (forall b: Label, k: nat, u ::
          b < |f.blocks| && k < |f.blocks[b].body| && u in Uses(f.nodes[f.blocks[b].body[k]]) ==>
            u < |f.nodes|)
    && (forall b: Label, u :: b < |f.blocks| && u in EndUses(f.blocks[b].end) ==> u < |f.nodes|)
  }

  // The operations that the switch over the kinds of node lists, by what happens to them.
  datatype Kinds = Kinds(deleted: set<nat>, kept: set<nat>)

  // Kinds that are deleted when nothing uses them; of the operations, those listed, and no volatile
  // load.
  predicate Deletable(ops: Kinds, t: Typing, r: Reg, n: Node)
  {
    match n
    case Pure(op, _) => op in ops.deleted
    case Load(_) => r !in t.volatile
    case Pass(_) => true
    case Local => true
    case _ => false
  }

  // Kinds the switch does not know: an unused one is a tb_todo().
  predicate Undecided(ops: Kinds, n: Node)
  {
    match n
    case Pure(op, _) => op !in ops.deleted && op !in ops.kept
    case Effect(op, _) => op !in ops.kept
    case _ => false
  }

  // ----- Counting -----

  ghost predicate CountsAre(f: Function, counts: seq<int>)
    requires Shape(f)
  {
    |counts| == |f.nodes| && forall a: Reg :: a < |counts| ==> counts[a] == AllUses(f, a, |f.blocks|)
  }

  method CountInputs(counts: array<int>, rs: seq<Reg>)
    requires forall i :: 0 <= i < |rs| ==> rs[i] < counts.Length
    modifies counts
    ensures forall a: Reg :: a < counts.Length ==> counts[a] == old(counts[a]) + Count(rs, a)
  {
    var i: nat := 0;
    while i < |rs|
      invariant i <= |rs| && forall a: Reg :: a < counts.Length ==> counts[a] == old(counts[a]) + Count(rs[..i], a)
    {
      assert rs[..i + 1][..i] == rs[..i];
      counts[rs[i]] := counts[rs[i]] + 1;
      i := i + 1;
    }
    assert rs[..i] == rs;
  }

  method DropInputs(counts: array<int>, rs: seq<Reg>)
    requires forall i :: 0 <= i < |rs| ==> rs[i] < counts.Length
    modifies counts
    ensures forall a: Reg :: a < counts.Length ==> counts[a] == old(counts[a]) - Count(rs, a)
  {
    var i: nat := 0;
    while i < |rs|
      invariant i <= |rs| && forall a: Reg :: a < counts.Length ==> counts[a] == old(counts[a]) - Count(rs[..i], a)
    {
      assert rs[..i + 1][..i] == rs[..i];
      counts[rs[i]] := counts[rs[i]] - 1;
      i := i + 1;
    }
    assert rs[..i] == rs;
  }

  lemma NodeUsesFit(f: Function, b: Label, k: nat)
    requires Counted(f) && b < |f.blocks| && k < |f.blocks[b].body|
    ensures f.blocks[b].body[k] < |f.nodes|
    ensures forall i :: 0 <= i < |Uses(f.nodes[f.blocks[b].body[k]])| ==>
              Uses(f.nodes[f.blocks[b].body[k]])[i] < |f.nodes|
  {
    var us := Uses(f.nodes[f.blocks[b].body[k]]);
    forall i | 0 <= i < |us| ensures us[i] < |f.nodes| {
      assert us[i] in us;
    }
  }

  lemma EndUsesFit(f: Function, b: Label)
    requires Counted(f) && b < |f.blocks|
    ensures forall i :: 0 <= i < |EndUses(f.blocks[b].end)| ==> EndUses(f.blocks[b].end)[i] < |f.nodes|
  {
    var us := EndUses(f.blocks[b].end);
    forall i | 0 <= i < |us| ensures us[i] < |f.nodes| {
      assert us[i] in us;
    }
  }

  // The counts of the uses in the blocks before b.
  ghost predicate CountsTo(f: Function, counts: seq<int>, b: nat)
    requires Shape(f) && b <= |f.blocks|
  {
    |counts| == |f.nodes| && forall a: Reg :: a < |counts| ==> counts[a] == AllUses(f, a, b)
  }

  // tb_function_calculate_use_count
  method CalculateUseCount(f: Function, counts: array<int>)
    requires Counted(f) && counts.Length == |f.nodes|
    modifies counts
    ensures CountsAre(f, counts[..])
  {
    hide Counted, Shape, CountsTo, CountsAre;
    CountedShape(f);
    ClearCounts(f, counts);
    var bb: nat := 0;
    while bb < |f.blocks|
      invariant bb <= |f.blocks| && CountsTo(f, counts[..], bb)
    {
      CountBlock(f, counts, bb);
      bb := bb + 1;
    }
    CountedAll(f, counts[..]);
  }

  lemma CountedAll(f: Function, counts: seq<int>)
    requires Shape(f) && CountsTo(f, counts, |f.blocks|)
    ensures CountsAre(f, counts)
  {
    hide Shape, AllUses;
  }

  method ClearCounts(f: Function, counts: array<int>)
    requires Shape(f) && counts.Length == |f.nodes|
    modifies counts
    ensures CountsTo(f, counts[..], 0)
  {
    hide Shape;
    forall i | 0 <= i < counts.Length {
      counts[i] := 0;
    }
  }

  method CountBlock(f: Function, counts: array<int>, bb: Label)
    requires Counted(f) && bb < |f.blocks| && counts.Length == |f.nodes| && CountsTo(f, counts[..], bb)
    modifies counts
    ensures CountsTo(f, counts[..], bb + 1)
  {
    assert Shape(f);
    hide Counted, Uses, EndUses, Count, Shape, AllUses, BodyUses;
    CountBody(f, counts, bb);
    EndUsesFit(f, bb);
    CountInputs(counts, EndUses(f.blocks[bb].end));
    AllUsesNext(f, bb);
  }

  lemma AllUsesNext(f: Function, b: Label)
    requires Shape(f) && b < |f.blocks|
    ensures forall a: Reg ::
              AllUses(f, a, b + 1) == AllUses(f, a, b) + BodyUses(f, a, b, |f.blocks[b].body|) +
                Count(EndUses(f.blocks[b].end), a)
  {
  }

  method CountBody(f: Function, counts: array<int>, bb: Label)
    requires Shape(f) && Counted(f) && bb < |f.blocks| && counts.Length == |f.nodes|
    modifies counts
    ensures forall a: Reg :: a < counts.Length ==> counts[a] == old(counts[a]) + BodyUses(f, a, bb, |f.blocks[bb].body|)
  {
    hide Counted, Uses, Count, Shape;
    var k: nat := 0;
    var body := f.blocks[bb].body;
    while k < |body|
      invariant k <= |body|
      invariant forall a: Reg :: a < counts.Length ==> counts[a] == old(counts[a]) + BodyUses(f, a, bb, k)
    {
      NodeUsesFit(f, bb, k);
      CountInputs(counts, Uses(f.nodes[body[k]]));
      k := k + 1;
    }
  }

  // ----- What a removal does to the counts -----

  lemma {:induction false} BodyKill(f: Function, h: Function, r: Reg, a: Reg, b: Label, k: nat)
    requires Shape(f) && Killed(f, h, r) && Shape(h) && b < |f.blocks| && k <= |f.blocks[b].body|
    ensures BodyUses(f, a, b, k) == BodyUses(h, a, b, k) +
              if r in f.blocks[b].body[..k] then Count(Uses(f.nodes[r]), a) else 0
  {
    hide Uses, Count;
    if k > 0 {
      BodyKill(f, h, r, a, b, k - 1);
      assert f.blocks[b].body[..k] == f.blocks[b].body[..k - 1] + [f.blocks[b].body[k - 1]];
      OnceListed(f, r, b, k - 1);
      hide Shape;
      NullCount(a);
    }
  }

  lemma NullCount(a: Reg)
    ensures Count(Uses(Null), a) == 0
  {
  }

  lemma OnceListed(f: Function, r: Reg, b: Label, k: nat)
    requires Shape(f) && b < |f.blocks| && k < |f.blocks[b].body|
    ensures f.blocks[b].body[k] !in f.blocks[b].body[..k] && f.blocks[b].body[k] < |f.nodes|
  {
  }

  lemma {:induction false} AllKill(f: Function, h: Function, r: Reg, a: Reg, b: nat)
    requires Shape(f) && Killed(f, h, r) && Shape(h) && b <= |f.blocks|
    ensures AllUses(f, a, b) == AllUses(h, a, b) + if ListedTo(f, r, b, 0) then Count(Uses(f.nodes[r]), a) else 0
  {
    hide BodyUses, Uses, EndUses, Count, Shape, ListedTo;
    if b == 0 {
      NoneListed(f, r);
    } else {
      AllKill(f, h, r, a, b - 1);
      var body := f.blocks[b - 1].body;
      BodyKill(f, h, r, a, b - 1, |body|);
      assert body[..|body|] == body;
      ListedInOne(f, r, b - 1);
    }
  }

  lemma NoneListed(f: Function, r: Reg)
    ensures !ListedTo(f, r, 0, 0)
  {
  }

  lemma ListedInOne(f: Function, r: Reg, b: Label)
    requires Shape(f) && b < |f.blocks|
    ensures ListedTo(f, r, b + 1, 0) <==> ListedTo(f, r, b, 0) || r in f.blocks[b].body
    ensures !(ListedTo(f, r, b, 0) && r in f.blocks[b].body)
  {
    if r in f.blocks[b].body {
      var k: nat :| k < |f.blocks[b].body| && f.blocks[b].body[k] == r;
      assert ListedTo(f, r, b + 1, 0);
    }
  }

  lemma KillCounts(f: Function, h: Function, b: Label, k: nat, counts: seq<int>, counts1: seq<int>)
    requires Counted(f) && b < |f.blocks| && k < |f.blocks[b].body| && Killed(f, h, f.blocks[b].body[k])
    requires CountsAre(f, counts) && |counts1| == |counts|
    requires forall a: Reg :: a < |counts| ==> counts1[a] == counts[a] - Count(Uses(f.nodes[f.blocks[b].body[k]]), a)
    ensures Counted(h) && CountsAre(h, counts1)
  {
    var r := f.blocks[b].body[k];
    KillShape(f, h, r);
    assert ListedTo(f, r, |f.blocks|, 0);
    hide Shape;
    forall a: Reg | a < |counts| ensures counts1[a] == AllUses(h, a, |h.blocks|) {
      AllKill(f, h, r, a, |f.blocks|);
    }
  }

  // ----- A count of zero -----

  lemma {:induction false} BodyBound(f: Function, a: Reg, b: Label, k: nat, n: nat)
    requires Shape(f) && b < |f.blocks| && k < n <= |f.blocks[b].body|
    ensures Count(Uses(f.nodes[f.blocks[b].body[k]]), a) <= BodyUses(f, a, b, n)
  {
    hide Uses, Count, Shape;
    if k < n - 1 { BodyBound(f, a, b, k, n - 1); }
  }

  lemma {:induction false} AllBound(f: Function, a: Reg, b: Label, n: nat)
    requires Shape(f) && b < n <= |f.blocks|
    ensures BodyUses(f, a, b, |f.blocks[b].body|) + Count(EndUses(f.blocks[b].end), a) <= AllUses(f, a, n)
  {
    hide BodyUses, Uses, EndUses, Count, Shape;
    if b < n - 1 { AllBound(f, a, b, n - 1); }
  }

  lemma ZeroIsUnused(f: Function, r: Reg)
    requires Shape(f) && AllUses(f, r, |f.blocks|) == 0
    ensures Unused(f, r)
  {
    forall b: Label | b < |f.blocks|
      ensures (forall k: nat :: k < |f.blocks[b].body| ==> NodeSkips(f, b, k, r)) && r !in EndUses(f.blocks[b].end)
    {
      AllBound(f, r, b, |f.blocks|);
      forall k: nat | k < |f.blocks[b].body| ensures NodeSkips(f, b, k, r) {
        BodyBound(f, r, b, k, |f.blocks[b].body|);
        NotUsed(f, r, b, k);
      }
    }
  }

  lemma NotUsed(f: Function, r: Reg, b: Label, k: nat)
    requires Shape(f) && b < |f.blocks| && k < |f.blocks[b].body| && Count(Uses(f.nodes[f.blocks[b].body[k]]), r) == 0
    ensures NodeSkips(f, b, k, r)
  {
    var n := f.nodes[f.blocks[b].body[k]];
    assert r !in Uses(n);
    if n.Phi? {
      forall i | 0 <= i < |n.inputs| ensures n.inputs[i].val != r {
        assert Uses(n)[i] == n.inputs[i].val;
      }
    }
  }

  // ----- The pass -----

  ghost predicate KillStep(ops: Kinds, f: Function, h: Function, r: Reg)
  {
    && Shape(f) && Killed(f, h, r) && r != 0 && Listed(f, r) && Deletable(ops, f.types, r, f.nodes[r])
    && AllUses(f, r, |f.blocks|) == 0
  }

  // h is f without the nodes in `kills`, none of which was read when it went.
  ghost predicate Pruned(ops: Kinds, f: Function, h: Function, kills: seq<Reg>)
    decreases |kills|
  {
    if kills == [] then h == f
    else
      var front, last := kills[..|kills| - 1], kills[|kills| - 1];
      exists m :: Pruned(ops, f, m, front) && KillStep(ops, m, h, last)
  }

  ghost predicate NotDead(ops: Kinds, f: Function, b: Label, k: nat)
    requires Shape(f) && b < |f.blocks| && k < |f.blocks[b].body|
  {
    var r := f.blocks[b].body[k];
    Deletable(ops, f.types, r, f.nodes[r]) || Undecided(ops, f.nodes[r]) ==> AllUses(f, r, |f.blocks|) > 0
  }

  // Nothing is left to delete or to stop at.
  ghost predicate NoneDead(ops: Kinds, f: Function, b: nat, k: nat)
    requires Shape(f)
  {
    forall c: Label, j: nat :: Before(f, c, j, b, k) ==> NotDead(ops, f, c, j)
  }

  // Nodes that are still there.
  function Alive(nodes: seq<Node>): nat
  {
    if nodes == [] then 0 else Alive(nodes[..|nodes| - 1]) + if nodes[|nodes| - 1].Null? then 0 else 1
  }

  lemma {:induction false} KillLess(nodes: seq<Node>, r: Reg)
    requires r < |nodes| && !nodes[r].Null?
    ensures Alive(nodes[r := Null]) < Alive(nodes)
  {
    if r < |nodes| - 1 {
      KillLess(nodes[..|nodes| - 1], r);
      assert nodes[r := Null][..|nodes| - 1] == nodes[..|nodes| - 1][r := Null];
    } else {
      assert nodes[r := Null][..|nodes| - 1] == nodes[..|nodes| - 1];
    }
  }

  class Pruner {
    ghost const source: Function
    const ops: Kinds
    const useCount: array<int>
    var f: Function
    ghost var kills: seq<Reg>

    ghost predicate Valid()
      reads this, useCount
    {
      && Shape(f) && Counted(f) && CountsAre(f, useCount[..])
      && Pruned(ops, source, f, kills) && |f.blocks| == |source.blocks|
    }

    constructor (source: Function, ops: Kinds)
      requires Counted(source)
      ensures Valid() && this.source == source && this.ops == ops && f == source && fresh(useCount)
    {
      this.source, this.ops, f, kills := source, ops, source, [];
      useCount := new int[|source.nodes|];
      new;
      CalculateUseCount(f, useCount);
    }

    // One node whose count is zero. use_count stays exact.
    method Delete(b: Label, k: nat)
      requires Valid() && b < |f.blocks| && k < |f.blocks[b].body|
      requires f.blocks[b].body[k] < |f.nodes|
      requires Deletable(ops, f.types, f.blocks[b].body[k], f.nodes[f.blocks[b].body[k]])
      requires AllUses(f, f.blocks[b].body[k], |f.blocks|) == 0
      modifies `f, `kills, useCount
      ensures Valid() && kills == old(kills) + [old(f).blocks[b].body[k]] && f.blocks == old(f).blocks
      ensures Alive(f.nodes) < Alive(old(f).nodes)
    {
      hide Counted, CountsAre, Pruned, Deletable, Alive, AllUses;
      var r := f.blocks[b].body[k];
      ghost var f0, counts0 := f, useCount[..];
      KillReady(ops, f, b, k, counts0);
      DropInputs(useCount, Uses(f.nodes[r]));
      f := f.(nodes := f.nodes[r := Null]);
      KillCounts(f0, f, b, k, counts0, useCount[..]);
      PruneMore(ops, source, f0, f, kills, r);
      kills := kills + [r];
    }

    // None is a tb_todo().
    method SweepNode(b: Label, k: nat, ghost alive: nat, changed0: bool) returns (changed: Option<bool>)
      requires Valid() && b < |f.blocks| && k < |f.blocks[b].body|
      requires Sweeping(ops, f, alive, changed0, b, k)
      modifies `f, `kills, useCount
      ensures Valid() && f.blocks == old(f).blocks
      ensures if changed.None? then StopsAt(ops, f, b, k) else Sweeping(ops, f, alive, changed.value, b, k + 1)
    {
      var r := f.blocks[b].body[k];
      assert r < |f.nodes| == useCount.Length && Shape(f) && useCount[r] == AllUses(f, r, |f.blocks|);
      hide Counted, CountsAre, Pruned, Alive, AllUses, Shape, NoneDead;
      if useCount[r] == 0 && Undecided(ops, f.nodes[r]) {
        return None;
      }
      changed := Some(changed0);
      if useCount[r] == 0 && Deletable(ops, f.types, r, f.nodes[r]) {
        Delete(b, k);
        changed := Some(true);
      } else {
        SweepOn(ops, f, alive, changed0, b, k);
      }
    }

    method SweepBlock(b: Label, ghost alive: nat, changed0: bool) returns (changed: Option<bool>)
      requires Valid() && b < |f.blocks| && Sweeping(ops, f, alive, changed0, b, 0)
      modifies `f, `kills, useCount
      ensures Valid() && f.blocks == old(f).blocks
      ensures if changed.None? then Stopped(ops, f) else Sweeping(ops, f, alive, changed.value, b + 1, 0)
    {
      hide Counted, CountsAre, Pruned, Alive, Shape, Sweeping, StopsAt;
      changed := Some(changed0);
      var body := f.blocks[b].body;
      var k: nat := 0;
      while k < |body|
        invariant k <= |body| && Valid() && f.blocks == old(f).blocks && changed.Some?
        invariant Sweeping(ops, f, alive, changed.value, b, k)
      {
        changed := SweepNode(b, k, alive, changed.value);
        if changed.None? {
          return;
        }
        k := k + 1;
      }
      SweepNext(ops, f, alive, changed.value, b);
    }

    // dead_expr_elim, after the counting.
    method Prune() returns (ok: bool)
      requires Valid()
      modifies `f, `kills, useCount
      ensures Valid() && f.blocks == old(f).blocks
      ensures if ok then NoneDead(ops, f, |f.blocks|, 0) else Stopped(ops, f)
    {
      hide Counted, CountsAre, Pruned, Alive, Shape, NoneDead, Stopped;
      var localChanges := true;
      while localChanges
        invariant Valid() && f.blocks == old(f).blocks
        invariant !localChanges ==> NoneDead(ops, f, |f.blocks|, 0)
        decreases Alive(f.nodes), localChanges
      {
        ghost var alive := Alive(f.nodes);
        localChanges := false;
        SweepStarts(ops, f);
        var bb: nat := 0;
        while bb < |f.blocks|
          invariant Valid() && f.blocks == old(f).blocks && bb <= |f.blocks|
          invariant Sweeping(ops, f, alive, localChanges, bb, 0)
        {
          hide Sweeping;
          var changed := SweepBlock(bb, alive, localChanges);
          if changed.None? {
            return false;
          }
          localChanges := changed.value;
          bb := bb + 1;
        }
      }
      return true;
    }
  }

  // dead_expr_elim. None is a tb_todo().
  method DeadExprElim(f: Function, ops: Kinds) returns (h: Option<Function>, ghost kills: seq<Reg>)
    requires Counted(f)
    ensures h.None? <==> Stops(ops, f)
    ensures h.Some? ==> Pruned(ops, f, h.value, kills) && Shape(h.value) && NoneDead(ops, h.value, |h.value.blocks|, 0)
  {
    hide Counted, CountsAre, Pruned, Shape, NoneDead, Stopped, Stops;
    CountedShape(f);
    var p := new Pruner(f, ops);
    var ok := p.Prune();
    kills := p.kills;
    if !ok {
      StoppedStops(ops, f, p.f, kills);
      return None, kills;
    }
    NeverStops(ops, f, p.f, kills);
    return Some(p.f), kills;
  }

  // ----- When it stops -----

  // All uses of r are by nodes in D.
  ghost predicate OnlyUsedIn(f: Function, r: Reg, D: set<Reg>)
    requires Shape(f)
  {
    forall b: Label :: b < |f.blocks| ==>
      r !in EndUses(f.blocks[b].end)
      && forall k: nat :: k < |f.blocks[b].body| && r in Uses(f.nodes[f.blocks[b].body[k]]) ==> f.blocks[b].body[k] in D
  }

  // The nodes that go once those used only by them have gone, n deep.
  ghost function Falling(ops: Kinds, f: Function, n: nat): set<Reg>
    requires Shape(f)
  {
    if n == 0 then {}
    else
      var before := Falling(ops, f, n - 1);
      set r: Reg | 0 <= r < |f.nodes| && Listed(f, r) && Deletable(ops, f.types, r, f.nodes[r]) &&
        OnlyUsedIn(f, r, before)
  }

  // Some node of a kind that the switch does not know is used by nothing that stays.
  ghost predicate Stops(ops: Kinds, f: Function)
    requires Shape(f)
  {
    exists r: Reg, n: nat :: LeftOver(ops, f, r, n)
  }

  ghost predicate LeftOver(ops: Kinds, f: Function, r: Reg, n: nat)
    requires Shape(f)
  {
    r < |f.nodes| && Listed(f, r) && Undecided(ops, f.nodes[r]) && OnlyUsedIn(f, r, Falling(ops, f, n))
  }

  ghost predicate StopsAt(ops: Kinds, f: Function, b: Label, k: nat)
    requires Shape(f)
  {
    && b < |f.blocks| && k < |f.blocks[b].body| && Undecided(ops, f.nodes[f.blocks[b].body[k]])
    && AllUses(f, f.blocks[b].body[k], |f.blocks|) == 0
  }

  ghost predicate Stopped(ops: Kinds, f: Function)
    requires Shape(f)
  {
    exists b: Label, k: nat :: StopsAt(ops, f, b, k)
  }

  lemma CountedShape(f: Function)
    requires Counted(f)
    ensures Shape(f)
  {
  }

  lemma {:induction false} BodyZero(f: Function, a: Reg, b: Label, k: nat)
    requires Shape(f) && b < |f.blocks| && k <= |f.blocks[b].body|
    requires forall j: nat :: j < k ==> a !in Uses(f.nodes[f.blocks[b].body[j]])
    ensures BodyUses(f, a, b, k) == 0
  {
    hide Uses, Shape;
    if k > 0 { BodyZero(f, a, b, k - 1); }
  }

  lemma {:induction false} AllZero(f: Function, a: Reg, b: nat)
    requires Shape(f) && OnlyUsedIn(f, a, {}) && b <= |f.blocks|
    ensures AllUses(f, a, b) == 0
  {
    hide BodyUses, Uses, EndUses, Count, Shape;
    if b > 0 {
      AllZero(f, a, b - 1);
      BodyZero(f, a, b - 1, |f.blocks[b - 1].body|);
      NoCount(EndUses(f.blocks[b - 1].end), a);
    }
  }

  lemma NoCount(s: seq<Reg>, a: Reg)
    ensures Count(s, a) == 0 <==> a !in s
  {
  }

  // A count is zero exactly if there is no use.
  lemma ZeroIff(f: Function, a: Reg)
    requires Shape(f)
    ensures AllUses(f, a, |f.blocks|) == 0 <==> OnlyUsedIn(f, a, {})
  {
    hide BodyUses, Uses, EndUses, Count, AllUses, WellFormed;
    if AllUses(f, a, |f.blocks|) == 0 {
      forall b: Label | b < |f.blocks|
        ensures a !in EndUses(f.blocks[b].end)
        ensures forall k: nat :: k < |f.blocks[b].body| ==> a !in Uses(f.nodes[f.blocks[b].body[k]])
      {
        AllBound(f, a, b, |f.blocks|);
        NoCount(EndUses(f.blocks[b].end), a);
        forall k: nat | k < |f.blocks[b].body| ensures a !in Uses(f.nodes[f.blocks[b].body[k]]) {
          BodyBound(f, a, b, k, |f.blocks[b].body|);
          NoCount(Uses(f.nodes[f.blocks[b].body[k]]), a);
        }
      }
    } else if OnlyUsedIn(f, a, {}) {
      AllZero(f, a, |f.blocks|);
    }
  }

  // h is f without the nodes in D.
  ghost predicate Without(f: Function, h: Function, D: set<Reg>)
  {
    && |h.nodes| == |f.nodes| && h.blocks == f.blocks && h.types == f.types
    && forall q: Reg :: q < |f.nodes| ==> h.nodes[q] == if q in D then Null else f.nodes[q]
  }

  lemma UsesWithout(f: Function, h: Function, D: set<Reg>, a: Reg)
    requires Shape(f) && Shape(h) && Without(f, h, D)
    ensures OnlyUsedIn(h, a, {}) <==> OnlyUsedIn(f, a, D)
  {
    hide EndUses;
    if OnlyUsedIn(h, a, {}) {
      forall b: Label, k: nat | b < |f.blocks| && k < |f.blocks[b].body| && a in Uses(f.nodes[f.blocks[b].body[k]])
        ensures f.blocks[b].body[k] in D
      {
        assert a !in Uses(h.nodes[h.blocks[b].body[k]]);
      }
    }
  }

  // What was not deleted is untouched.
  lemma {:induction false} PrunedWithout(ops: Kinds, f: Function, h: Function, kills: seq<Reg>)
    requires Pruned(ops, f, h, kills)
    ensures Without(f, h, Elems(kills))
    decreases |kills|
  {
    hide KillStep;
    if kills != [] {
      var l := |kills| - 1;
      var m :| Pruned(ops, f, m, kills[..l]) && KillStep(ops, m, h, kills[l]);
      PrunedWithout(ops, f, m, kills[..l]);
      StepKills(ops, m, h, kills[l]);
      assert Elems(kills) == Elems(kills[..l]) + {kills[l]};
    }
  }

  lemma StepKills(ops: Kinds, m: Function, h: Function, r: Reg)
    requires KillStep(ops, m, h, r)
    ensures Shape(m) && Shape(h) && Killed(m, h, r) && AllUses(m, r, |m.blocks|) == 0
    ensures Listed(m, r) && Deletable(ops, m.types, r, m.nodes[r])
  {
    KillShape(m, h, r);
  }

  lemma {:induction false} FallingGrows(ops: Kinds, f: Function, n: nat)
    requires Shape(f)
    ensures Falling(ops, f, n) <= Falling(ops, f, n + 1)
  {
    hide Shape, Uses, EndUses;
    if n > 0 { FallingGrows(ops, f, n - 1); }
  }

  // Whatever goes is bound to go.
  lemma {:induction false} KillsFall(ops: Kinds, f: Function, h: Function, kills: seq<Reg>)
    requires Shape(f) && Pruned(ops, f, h, kills)
    ensures Shape(h) && Elems(kills) <= Falling(ops, f, |kills|)
    decreases |kills|
  {
    hide Shape, Uses, EndUses, OnlyUsedIn, Deletable;
    if kills != [] {
      var l := |kills| - 1;
      var m :| Pruned(ops, f, m, kills[..l]) && KillStep(ops, m, h, kills[l]);
      KillsFall(ops, f, m, kills[..l]);
      KillFalls(ops, f, m, h, kills[..l], kills[l]);
      FallingGrows(ops, f, l);
      assert Elems(kills) == Elems(kills[..l]) + {kills[l]};
    }
  }

  lemma KillFalls(ops: Kinds, f: Function, m: Function, h: Function, before: seq<Reg>, r: Reg)
    requires Shape(f) && Pruned(ops, f, m, before) && KillStep(ops, m, h, r)
    requires Elems(before) <= Falling(ops, f, |before|)
    ensures Shape(h) && r in Falling(ops, f, |before| + 1)
  {
    hide Shape, Uses, EndUses, Pruned, KillStep;
    StepKills(ops, m, h, r);
    PrunedWithout(ops, f, m, before);
    ZeroIff(m, r);
    UsesWithout(f, m, Elems(before), r);
  }

  // A stop: the node is used by nothing that stays.
  lemma StoppedStops(ops: Kinds, f: Function, h: Function, kills: seq<Reg>)
    requires Shape(f) && Pruned(ops, f, h, kills) && Shape(h) && Stopped(ops, h)
    ensures Stops(ops, f)
  {
    hide Uses, EndUses, Pruned, Undecided, AllUses, Shape;
    var b: Label, k: nat :| StopsAt(ops, h, b, k);
    var r := h.blocks[b].body[k];
    KillsFall(ops, f, h, kills);
    PrunedWithout(ops, f, h, kills);
    ZeroIff(h, r);
    UsesWithout(f, h, Elems(kills), r);
    NullDecided(ops);
    FallsMore(f, r, Elems(kills), Falling(ops, f, |kills|));
    InBody(f, r, b, k);
    assert LeftOver(ops, f, r, |kills|);
  }

  lemma NullDecided(ops: Kinds)
    ensures !Undecided(ops, Null)
  {
  }

  lemma InBody(f: Function, r: Reg, b: Label, k: nat)
    requires Shape(f) && b < |f.blocks| && k < |f.blocks[b].body| && f.blocks[b].body[k] == r
    ensures r < |f.nodes| && Listed(f, r)
  {
  }

  lemma FallsMore(f: Function, r: Reg, A: set<Reg>, B: set<Reg>)
    requires Shape(f) && OnlyUsedIn(f, r, A) && A <= B
    ensures OnlyUsedIn(f, r, B)
  {
  }

  // Nothing dead is left: all that is bound to go has gone.
  lemma {:induction false} FallingGone(ops: Kinds, f: Function, h: Function, kills: seq<Reg>, n: nat)
    requires Shape(f) && Pruned(ops, f, h, kills) && Shape(h) && NoneDead(ops, h, |h.blocks|, 0)
    ensures Falling(ops, f, n) <= Elems(kills)
  {
    hide Shape, Uses, EndUses, Pruned, NoneDead, Deletable, OnlyUsedIn, Listed;
    if n > 0 {
      FallingGone(ops, f, h, kills, n - 1);
      forall r | r in Falling(ops, f, n) ensures r in kills {
        FallsMore(f, r, Falling(ops, f, n - 1), Elems(kills));
        DeadGone(ops, f, h, kills, r);
      }
    }
  }

  // The theorem: exactly the nodes used by nothing but each other in the end are deleted.
  lemma PrunesExactly(ops: Kinds, f: Function, h: Function, kills: seq<Reg>, r: Reg)
    requires Shape(f) && Pruned(ops, f, h, kills) && Shape(h) && NoneDead(ops, h, |h.blocks|, 0)
    ensures r in kills <==> exists n: nat :: r in Falling(ops, f, n)
  {
    hide Shape, Pruned, NoneDead, Falling;
    KillsFall(ops, f, h, kills);
    if n: nat :| r in Falling(ops, f, n) { FallingGone(ops, f, h, kills, n); }
  }

  lemma DeadGone(ops: Kinds, f: Function, h: Function, kills: seq<Reg>, r: Reg)
    requires Shape(f) && Pruned(ops, f, h, kills) && Shape(h) && NoneDead(ops, h, |h.blocks|, 0)
    requires r < |f.nodes| && Listed(f, r) && (Deletable(ops, f.types, r, f.nodes[r]) || Undecided(ops, f.nodes[r]))
    requires OnlyUsedIn(f, r, Elems(kills))
    ensures r in kills
  {
    hide Shape, Uses, EndUses, Pruned, Deletable, Undecided, OnlyUsedIn, AllUses;
    PrunedWithout(ops, f, h, kills);
    UsesWithout(f, h, Elems(kills), r);
    ZeroIff(h, r);
    if r !in kills {
      StillCounted(ops, h, r);
    }
  }

  lemma StillCounted(ops: Kinds, h: Function, r: Reg)
    requires Shape(h) && NoneDead(ops, h, |h.blocks|, 0) && r < |h.nodes| && Listed(h, r)
    requires Deletable(ops, h.types, r, h.nodes[r]) || Undecided(ops, h.nodes[r])
    ensures AllUses(h, r, |h.blocks|) > 0
  {
    hide Shape, Deletable, Undecided, AllUses;
    var b: Label, k: nat :| b < |h.blocks| && k < |h.blocks[b].body| && h.blocks[b].body[k] == r;
    assert Before(h, b, k, |h.blocks|, 0);
    assert NotDead(ops, h, b, k);
  }

  // The end is reached only if there is nothing to stop at.
  lemma NeverStops(ops: Kinds, f: Function, h: Function, kills: seq<Reg>)
    requires Shape(f) && Pruned(ops, f, h, kills) && Shape(h) && NoneDead(ops, h, |h.blocks|, 0)
    ensures !Stops(ops, f)
  {
    hide Shape, Pruned, NoneDead, OnlyUsedIn, Listed, Falling;
    if r: Reg, n: nat :| LeftOver(ops, f, r, n) {
      FallingGone(ops, f, h, kills, n);
      FallsMore(f, r, Falling(ops, f, n), Elems(kills));
      DeadGone(ops, f, h, kills, r);
      KilledDecided(ops, f, h, kills, r);
    }
  }

  lemma KilledDecided(ops: Kinds, f: Function, h: Function, kills: seq<Reg>, r: Reg)
    requires Shape(f) && Pruned(ops, f, h, kills) && r in kills
    ensures r < |f.nodes| && !Undecided(ops, f.nodes[r])
  {
    hide Pruned, OnlyUsedIn, Shape;
    KillsFall(ops, f, h, kills);
  }

  lemma SweepStarts(ops: Kinds, f: Function)
    requires Shape(f)
    ensures NoneDead(ops, f, 0, 0)
  {
  }

  // What a sweep has seen when it comes to position k of block b: unless it has deleted a node
  // nothing before is dead.
  ghost predicate Sweeping(ops: Kinds, f: Function, alive: nat, changed: bool, b: nat, k: nat)
    requires Shape(f)
  {
    if changed then Alive(f.nodes) < alive else Alive(f.nodes) == alive && NoneDead(ops, f, b, k)
  }

  lemma SweepOn(ops: Kinds, f: Function, alive: nat, changed: bool, b: Label, k: nat)
    requires Shape(f) && b < |f.blocks| && k < |f.blocks[b].body| && Sweeping(ops, f, alive, changed, b, k)
    requires changed || NotDead(ops, f, b, k)
    ensures Sweeping(ops, f, alive, changed, b, k + 1)
  {
    hide NotDead, Shape;
    if !changed {
      forall c: Label, j: nat | Before(f, c, j, b, k + 1) ensures NotDead(ops, f, c, j) {
        assert (c == b && j == k) || Before(f, c, j, b, k);
      }
    }
  }

  lemma SweepNext(ops: Kinds, f: Function, alive: nat, changed: bool, b: Label)
    requires Shape(f) && b < |f.blocks| && Sweeping(ops, f, alive, changed, b, |f.blocks[b].body|)
    ensures Sweeping(ops, f, alive, changed, b + 1, 0)
  {
    hide NotDead, Shape;
    if !changed {
      forall c: Label, j: nat | Before(f, c, j, b + 1, 0) ensures NotDead(ops, f, c, j) {
        assert Before(f, c, j, b, |f.blocks[b].body|);
      }
    }
  }

  lemma KillReady(ops: Kinds, f: Function, b: Label, k: nat, counts: seq<int>)
    requires Counted(f) && CountsAre(f, counts) && b < |f.blocks| && k < |f.blocks[b].body|
    requires f.blocks[b].body[k] < |f.nodes|
    requires Deletable(ops, f.types, f.blocks[b].body[k], f.nodes[f.blocks[b].body[k]])
    requires AllUses(f, f.blocks[b].body[k], |f.blocks|) == 0
    ensures |counts| == |f.nodes|
    ensures var r := f.blocks[b].body[k]; var h := f.(nodes := f.nodes[r := Null]);
            KillStep(ops, f, h, r) && Alive(h.nodes) < Alive(f.nodes)
    ensures forall i :: 0 <= i < |Uses(f.nodes[f.blocks[b].body[k]])| ==>
              Uses(f.nodes[f.blocks[b].body[k]])[i] < |f.nodes|
  {
    var r := f.blocks[b].body[k];
    assert Shape(f) && f.nodes[0] == Null;
    NodeUsesFit(f, b, k);
    ZeroIsUnused(f, r);
    KillLess(f.nodes, r);
  }

  lemma PruneMore(ops: Kinds, f: Function, m: Function, h: Function, kills: seq<Reg>, r: Reg)
    requires Pruned(ops, f, m, kills) && KillStep(ops, m, h, r)
    ensures Pruned(ops, f, h, kills + [r])
  {
    hide KillStep;
    assert (kills + [r])[..|kills|] == kills;
  }

  // ----- Which kinds go -----

  // The theorem. What is left without a use is no PASS, no local, no load but a volatile one, and no
  // operation that is to be deleted.
  lemma UnusedLeft(ops: Kinds, h: Function, r: Reg)
    requires Shape(h) && NoneDead(ops, h, |h.blocks|, 0) && r < |h.nodes| && Listed(h, r) && OnlyUsedIn(h, r, {})
    ensures !h.nodes[r].Pass? && !h.nodes[r].Local? && (h.nodes[r].Load? ==> r in h.types.volatile)
    ensures h.nodes[r].Pure? ==> h.nodes[r].opcode in ops.kept && h.nodes[r].opcode !in ops.deleted
    ensures h.nodes[r].Effect? ==> h.nodes[r].opcode in ops.kept
  {
    ZeroIff(h, r);
    hide Shape, NoneDead, AllUses, OnlyUsedIn, Listed;
    if Deletable(ops, h.types, r, h.nodes[r]) || Undecided(ops, h.nodes[r]) {
      StillCounted(ops, h, r);
    }
  }

  // A function whose operations are all listed does not make the pass stop.
  lemma ListedGoesThrough(ops: Kinds, f: Function)
    requires Shape(f)
    requires forall r: Reg :: r < |f.nodes| && Listed(f, r) ==>
               && (f.nodes[r].Pure? ==> f.nodes[r].opcode in ops.deleted + ops.kept)
               && (f.nodes[r].Effect? ==> f.nodes[r].opcode in ops.kept)
    ensures !Stops(ops, f)
  {
    hide Shape, OnlyUsedIn, Listed, Falling;
  }

  // Stores, memsets, other effects, phis, homes of parameters, volatile loads and all other
  // operations are left as they were, used or not.
  lemma KeptKinds(ops: Kinds, f: Function, h: Function, kills: seq<Reg>, r: Reg)
    requires Shape(f) && Pruned(ops, f, h, kills) && r < |f.nodes|
    requires var n := f.nodes[r];
             || n.Store? || n.Clear? || n.Effect? || n.Phi? || n.ParamAddr? || (n.Load? && r in f.types.volatile)
             || (n.Pure? && n.opcode !in ops.deleted)
    ensures |h.nodes| == |f.nodes| && h.nodes[r] == f.nodes[r]
  {
    hide Shape, Pruned, OnlyUsedIn, Listed;
    PrunedWithout(ops, f, h, kills);
    KillsFall(ops, f, h, kills);
  }

  // ----- What it means for runs -----

  // Loads that are not volatile leave the world alone.
  ghost predicate QuietLoads<V(!new), W(!new)>(sem: Sem<V, W>, volatile: set<Reg>)
  {
    forall r: Reg :: r !in volatile ==> QuietLoad(sem, r)
  }

  // The theorem: after the pass every run visits the same blocks with the same effects and
  // outcome, and every register that was not deleted keeps its value.
  lemma {:induction false} PruningPreservesRuns<V(!new), W(!new)>(sem: Sem<V, W>, ops: Kinds, f: Function, h: Function,
                                                                  kills: seq<Reg>, w: W, n: nat)
    requires Shape(f) && Pruned(ops, f, h, kills) && QuietLoads(sem, f.types.volatile)
    ensures Shape(h) && SameBut(sem, Elems(kills), Run(sem, {}, f, w, n), Run(sem, {}, h, w, n))
    decreases |kills|
  {
    hide Shape, Run, KillStep, QuietLoads;
    if kills == [] {
      assert SameBut(sem, {}, Run(sem, {}, f, w, n), Run(sem, {}, h, w, n));
    } else {
      var l := |kills| - 1;
      var m :| Pruned(ops, f, m, kills[..l]) && KillStep(ops, m, h, kills[l]);
      PrunedWithout(ops, f, m, kills[..l]);
      PruningPreservesRuns(sem, ops, f, m, kills[..l], w, n);
      KillStepRuns(sem, ops, m, h, kills[l], w, n);
      hide SameBut;
      Merging.SameButTrans(sem, Elems(kills[..l]), {kills[l]}, Run(sem, {}, f, w, n), Run(sem, {}, m, w, n),
        Run(sem, {}, h, w, n));
      assert Elems(kills) == Elems(kills[..l]) + {kills[l]};
    }
  }

  lemma KillStepRuns<V(!new), W(!new)>(sem: Sem<V, W>, ops: Kinds, f: Function, h: Function, r: Reg, w: W, n: nat)
    requires Shape(f) && KillStep(ops, f, h, r) && QuietLoads(sem, f.types.volatile)
    ensures Shape(h) && SameBut(sem, {r}, Run(sem, {}, f, w, n), Run(sem, {}, h, w, n))
  {
    ZeroIsUnused(f, r);
    RemovalPreservesRuns(sem, f, h, r, w, n);
  }
}
